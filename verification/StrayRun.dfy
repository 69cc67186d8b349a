/** A run of allocations, links and frees alone, no byte of payload written, whose
    last free is led astray. */
module StrayRun {
  import opened Allocator
  import opened Arena
  import opened Bytes
  import opened Freeing
  import opened HeapModel
  import opened Layout
  import opened Mirror
  import opened MirrorFree
  import opened MirrorLive
  import opened MirrorSight
  import opened MirrorStray
  import opened MirrorTake
  import opened Runs
  import opened Saving
  import opened Steps
  import opened Tally

  // ---- steps of a heap with one free block -----------------------------------------------

  lemma SoleCollate(s: Heap, c: nat)
    requires WF(s) && s.free == [c]
    ensures FreeAt(s.blk, c) && Collate(s, c) == s.(tagged := Collate(s, c).tagged)
  {
    assert c in s.free;
    FitsTiles(s.w, s.end, s.blk, c);
    assert forall x :: FreeAt(s.blk, x) <==> x in s.free;
  }

  // An allocation is served from the only free block there is.
  lemma RunSole(s: Heap, c: nat, n: nat, budget: nat)
    requires WF(s) && s.free == [c] && c in s.blk && MinBlock(s.w) <= n <= s.blk[c].size && 1 <= budget
    ensures var r := Run(s, n, false, 0, budget); var size := s.blk[c].size;
      && r.Granted? && r.a == c && r.s.w == s.w && r.s.max == s.max && r.s.end == s.end
      && r.s.blk == (if size - n < MinBlock(s.w) then s.blk[c := Block(size, PENDING)]
                     else s.blk[c := Block(n, PENDING)][c + n := Block(size - n, Kind.Free)])
      && r.s.free == (if size - n < MinBlock(s.w) then [] else [c + n])
  {
    hide WF, Collate;
    SoleCollate(s, c);
    var t := Collate(s, c);
    NoBlockAt(s, c);
    VisitSole(s, c, n, t);
    WalkSole(s, c, n, budget, t);
    assert Replace([c], c, c + n) == [c + n];
    assert Run(s, n, false, 0, budget) == Granted(Hand(t, c, n), c);
  }

  lemma NoBlockAt(s: Heap, c: nat)
    requires WF(s) && c in s.blk
    ensures c != 0
  {
    NoBlockAtZero(s);
  }

  lemma VisitSole(s: Heap, c: nat, n: nat, t: Heap)
    requires WF(s) && FreeAt(s.blk, c) && MinBlock(s.w) <= n <= s.blk[c].size
    requires t == Collate(s, c) && t == s.(tagged := t.tagged)
    ensures Visit(s, c, n, false, NOTHING).s == t && Visit(s, c, n, false, NOTHING).f.best == c
  {
    hide WF, Collate;
  }

  lemma WalkSole(s: Heap, c: nat, n: nat, budget: nat, t: Heap)
    requires WF(s) && FreeAt(s.blk, c) && s.free == [c] && 1 <= budget
    requires Visit(s, c, n, false, NOTHING).s == t && Visit(s, c, n, false, NOTHING).f.best == c
    ensures Walk(s, s.free, n, false, NOTHING, budget) == Chosen(t, c)
  {
    hide WF, Visit;
    assert [c][1..] == [];
  }

  // What giving back a block makes of the blocks: on its own, or merged with the free
  // block behind it, up to a live block.
  lemma ForwardAlone(s: Heap, a: nat)
    requires WF(s) && LiveAt(s.blk, a) && EndOf(s.blk, a) != s.end && !FreeAt(s.blk, EndOf(s.blk, a))
    ensures var t, size := Forward(s, a), s.blk[a].size;
      && t.blk == s.blk[a := Block(size, Kind.Free)] && t.free == [a] + s.free
      && (FootMin(s.w) <= size ==> a in t.tagged)
  {
    hide WF;
    ReleaseKeeps(s, a);
    TileFacts(s, a, a);
  }

  lemma ForwardPair(s: Heap, a: nat, n: nat)
    requires WF(s) && LiveAt(s.blk, a) && n == EndOf(s.blk, a) && FreeAt(s.blk, n)
    requires EndOf(s.blk, n) != s.end && !FreeAt(s.blk, EndOf(s.blk, n))
    ensures var t := Forward(s, a);
      && t.blk == (s.blk - {n})[a := Block(s.blk[a].size + s.blk[n].size, Kind.Free)]
      && t.free == [a] + Remove(s.free, n)
  {
    hide WF;
    ReleaseKeeps(s, a);
    TileFacts(s, a, a);
    TileFacts(s, n, n);
    PairCollates(Release(s, a), a, n);
    assert Release(s, a).blk - {n} == (s.blk - {n})[a := Block(s.blk[a].size, Kind.Free)];
  }

  lemma PairCollates(s: Heap, a: nat, n: nat)
    requires WF(s) && FreeAt(s.blk, a) && n == EndOf(s.blk, a) && FreeAt(s.blk, n)
    requires EndOf(s.blk, n) != s.end && !FreeAt(s.blk, EndOf(s.blk, n))
    ensures var t := Collate(s, a);
      && t.blk == (s.blk - {n})[a := Block(s.blk[a].size + s.blk[n].size, Kind.Free)] && t.free == Remove(s.free, n)
  {
    hide WF;
    TileFacts(s, a, a);
    TileFacts(s, n, n);
    AbsorbKeeps(s, a);
  }

  // ---- states of the run --------------------------------------------------------------------

  const END: nat := 16384

  // A sound 32-bit heap over END bytes with these blocks and this free list, no bytes lost.
  ghost predicate At(x: State, max: nat, blk: Blocks, free: seq<nat>) {
    Runs.Sound(x) && x.lost == 0 && x.s.w == 4 && x.s.max == max && x.s.end == END && x.s.blk == blk && x.s.free == free
  }

  // Nothing touched lies in [lo, hi).
  lemma Untouched(m: Buffer, r: Buffer, w: nat, c: set<nat>, e: set<nat>, lo: nat, hi: nat)
    requires Touched(m, r, w, c, e) && |m| == |r| && hi <= |m|
    requires forall x :: x in c ==> hi <= x || x + ControlSize(w) <= lo
    requires forall x :: x in e ==> hi + FOOT <= x || x <= lo
    ensures SameOn(m, r, lo, hi)
  {
    forall i | lo <= i < hi
      ensures m[i] == r[i]
    {
    }
  }

  // What an allocation of n bytes from the only free block c leaves.
  function TakenBlocks(blk: Blocks, c: nat, n: nat): Blocks
    requires c in blk && n <= blk[c].size
  {
    if blk[c].size - n < 14 then blk[c := Block(blk[c].size, Live(1, false))]
    else blk[c := Block(n, Live(1, false))][c + n := Block(blk[c].size - n, Kind.Free)]
  }

  function TakenFree(blk: Blocks, c: nat, n: nat): seq<nat>
    requires c in blk && n <= blk[c].size
  {
    if blk[c].size - n < 14 then [] else [c + n]
  }

  // An allocation of n bytes at c touches at most the records at c and behind what it
  // took, and a tag that ends at e.
  ghost predicate TakenSpots(x: State, y: State, c: nat, n: nat, e: nat) {
    Touched(x.mem, y.mem, 4, {c, c + n}, {e}) && |x.mem| == |y.mem| == END
  }

  lemma TakenHeap(x: State, c: nat, n: nat, y: State)
    requires WF(x.s) && x.s.w == 4 && x.s.free == [c] && c in x.s.blk && 14 <= n <= x.s.blk[c].size && n < WORD
    requires !OverLimit(x, n) && Allocates(x, 1, n - 5, y)
    ensures y.s.blk == TakenBlocks(x.s.blk, c, n) && y.s.free == TakenFree(x.s.blk, c, n)
    ensures y.s.w == 4 && y.s.max == x.s.max && y.s.end == x.s.end && y.lost == x.lost
    ensures TakeTouches(x.mem, y.mem, x.s, y.s) && (y.s.free == [] || y.s.free == [c + n])
  {
    hide WF, Told, LiveSame, TakeTouches, Run, OverLimit;
    BudgetHere(x);
    RunSole(x.s, c, n, MaxBlocks(x.s.w, x.s.end));
    assert Rounded(4, n - 5) == n;
    var r := Attempt(x, n);
    assert y.s == Retype(r.s, c, Live(1, false));
  }

  lemma Takes(x: State, max: nat, blk: Blocks, c: nat, n: nat, e: Event, y: State)
    requires WF(x.s) && Next(x, e, y) && c in blk && 14 <= n <= blk[c].size && e == Event.Alloc(1, n - 5)
    requires At(x, max, blk, [c])
    ensures At(y, max, TakenBlocks(blk, c, n), TakenFree(blk, c, n)) && TakenSpots(x, y, c, n, c + blk[c].size)
  {
    hide WF, Told, Runs.Sound, OverLimit, Allocates, TakenBlocks, TakenFree, TakeTouches, Touched;
    SoundWF(x);
    FreeHere(x.s, c);
    SizeHere(x.s, c);
    NoCeiling(x, n, c);
    TakenHeap(x, c, n, y);
    AllocSound(x, 1, n - 5, y);
    SoundWF(y);
    LengthHere(x);
    LengthHere(y);
    TakeSpots(x, y, c, n);
  }

  lemma SizeHere(s: Heap, c: nat)
    requires WF(s) && c in s.blk
    ensures s.blk[c].size < WORD
  {
    TileFacts(s, c, c);
  }

  lemma FreeHere(s: Heap, c: nat)
    requires WF(s) && s.free == [c]
    ensures FreeAt(s.blk, c)
  {
    assert c in s.free;
  }

  lemma LengthHere(x: State)
    requires Told(x)
    ensures |x.mem| == x.s.end
  {
  }

  lemma BudgetHere(x: State)
    ensures 1 <= MaxBlocks(x.s.w, x.s.end)
  {
  }

  lemma NoCeiling(x: State, n: nat, c: nat)
    requires Runs.Sound(x) && x.lost == 0 && FitAt(x.s.blk, n, c)
    ensures !OverLimit(x, n)
  {
    hide WF, Tidy, Held, Told, OverLimit;
    RunHere(x.s, c, n);
    CeilingHonest(x, n);
  }

  lemma RunHere(s: Heap, c: nat, n: nat)
    requires WF(s) && FitAt(s.blk, n, c)
    ensures HasRun(s.end, s.blk, n)
  {
    TileFacts(s, c, c);
  }

  lemma TakeSpots(x: State, y: State, c: nat, n: nat)
    requires TakeTouches(x.mem, y.mem, x.s, y.s) && x.s.w == 4
    requires WF(x.s) && WF(y.s) && x.s.free == [c] && c in x.s.blk && (y.s.free == [] || y.s.free == [c + n])
    requires |x.mem| == |y.mem| == END
    ensures TakenSpots(x, y, c, n, c + x.s.blk[c].size)
  {
    hide Touched, Tiles, Tagged;
    assert forall b :: b in FreeStarts(x.s.blk) ==> b in x.s.free;
    assert forall b :: b in FreeStarts(y.s.blk) ==> b in y.s.free;
    forall e | e in FreeEnds(x.s.blk)
      ensures e == c + x.s.blk[c].size
    {
      var b :| b in x.s.blk && FreeAt(x.s.blk, b) && e == EndOf(x.s.blk, b);
      assert b in x.s.free;
    }
    TouchedMore(x.mem, y.mem, 4, FreeStarts(x.s.blk) + FreeStarts(y.s.blk), FreeEnds(x.s.blk),
                {c, c + n}, {c + x.s.blk[c].size});
  }

  // The blocks with a linked.
  function LinkedBlocks(blk: Blocks, a: nat): Blocks
    requires a in blk
  {
    blk[a := Block(blk[a].size, Live(1, true))]
  }

  lemma IsLinked(x: State, max: nat, blk: Blocks, free: seq<nat>, a: nat, y: State)
    requires WF(x.s) && Next(x, Event.Link(a), y) && LiveAt(blk, a) && blk[a].kind.typ == 1 && At(x, max, blk, free)
    ensures At(y, max, LinkedBlocks(blk, a), free)
    ensures Touched(x.mem, y.mem, 4, {a}, {}) && |x.mem| == |y.mem| == END
  {
    hide WF, Tidy, Held, Told, Touched, Runs.Sound;
    NextSound(x, Event.Link(a), y);
    SoundWF(x);
    SoundWF(y);
    LengthHere(x);
    LengthHere(y);
    TouchedAt(x.mem, y.mem, 4, {a}, {}, a);
  }

  // The blocks once a is back and merged with nothing, or with the free block n behind.
  function BackBlocks(blk: Blocks, a: nat): Blocks
    requires a in blk
  {
    blk[a := Block(blk[a].size, Kind.Free)]
  }

  function JoinedBlocks(blk: Blocks, a: nat, n: nat): Blocks
    requires a in blk && n in blk
  {
    (blk - {n})[a := Block(blk[a].size + blk[n].size, Kind.Free)]
  }

  lemma SameArenaIs(x: State, y: State)
    requires SameArena(x.s, y.s)
    ensures y.s.w == x.s.w && y.s.max == x.s.max
  {
  }

  lemma FreedEnd(x: State, a: nat, y: State)
    requires WF(x.s) && Next(x, Event.Free(a), y) && Freeable(x.s.blk, a) && !Misled(x.mem, x.s, a) && Runs.Sound(x)
    ensures y.s.end == x.s.end
  {
    hide WF, Tidy, Held, Told, Frees, Misled;
    FreeWorks(x, a, y);
  }

  lemma FreesIs(x: State, a: nat, y: State)
    requires WF(x.s) && a in x.s.blk && Frees(x, a, y) && Freeable(x.s.blk, a) && !Misled(x.mem, x.s, a)
    ensures y.lost == x.lost && FreeTouches(x.mem, y.mem, x.s, a)
    ensures var p := Sight(x.mem, x.s, a); (p != 0 ==> FreeAt(Forward(x.s, a).blk, p)) && y.s == Freed(x.s, a, p)
  {
    hide WF, Told, FreeTouches, Forward, Freed, Misled, Sight, LiveSame, AtLookBack;
  }

  // What is known of a free that goes straight.
  lemma FreedStraight(x: State, max: nat, blk: Blocks, free: seq<nat>, a: nat, y: State)
    requires WF(x.s) && Next(x, Event.Free(a), y) && Freeable(x.s.blk, a) && !Misled(x.mem, x.s, a)
    requires At(x, max, blk, free)
    ensures Runs.Sound(y) && y.lost == 0 && y.s.w == 4 && y.s.max == max && y.s.end == END
    ensures |x.mem| == |y.mem| == END && FreeTouches(x.mem, y.mem, x.s, a) && WF(x.s)
    ensures var p := Sight(x.mem, x.s, a); (p != 0 ==> FreeAt(Forward(x.s, a).blk, p)) && y.s == Freed(x.s, a, p)
  {
    hide WF, Told, FreeTouches, Forward, Freed, Misled, Sight, Frees, Runs.Sound, SameArena;
    SoundWF(x);
    FreeSound(x, a, y);
    SoundWF(y);
    SameArenaIs(x, y);
    FreedEnd(x, a, y);
    FreesIs(x, a, y);
    LengthHere(x);
    LengthHere(y);
  }

  // ---- the run --------------------------------------------------------------------------------

  /** What the client does: nine blocks, of 25, 10626, 40, 60, 5585, 200, 10434, 32 and 60
      bytes with their headers, each linked, and five of them given back. */
  function Client(): seq<Event> {
    [Event.Alloc(1, 20), Event.Link(48), Event.Alloc(1, 10621), Event.Link(73), Event.Alloc(1, 35), Event.Link(10699),
     Event.Alloc(1, 55), Event.Link(10739), Event.Alloc(1, 5580), Event.Link(10799),
     Event.Free(10699), Event.Free(10739), Event.Free(73),
     Event.Alloc(1, 195), Event.Link(73), Event.Alloc(1, 10429), Event.Link(273), Event.Alloc(1, 27), Event.Link(10707),
     Event.Alloc(1, 55), Event.Link(10739), Event.Free(273), Event.Free(10739)]
  }

  function L(n: nat): Block { Block(n, Live(1, true)) }

  function U(n: nat): Block { Block(n, Live(1, false)) }

  function F(n: nat): Block { Block(n, Kind.Free) }

  // The blocks after the first k actions.
  function Plan(k: nat): Blocks {
    match k
    case 0 => map[48 := F(16336)]
    case 1 => map[48 := U(25), 73 := F(16311)]
    case 2 => map[48 := L(25), 73 := F(16311)]
    case 3 => map[48 := L(25), 73 := U(10626), 10699 := F(5685)]
    case 4 => map[48 := L(25), 73 := L(10626), 10699 := F(5685)]
    case 5 => map[48 := L(25), 73 := L(10626), 10699 := U(40), 10739 := F(5645)]
    case 6 => map[48 := L(25), 73 := L(10626), 10699 := L(40), 10739 := F(5645)]
    case 7 => map[48 := L(25), 73 := L(10626), 10699 := L(40), 10739 := U(60), 10799 := F(5585)]
    case 8 => map[48 := L(25), 73 := L(10626), 10699 := L(40), 10739 := L(60), 10799 := F(5585)]
    case 9 => map[48 := L(25), 73 := L(10626), 10699 := L(40), 10739 := L(60), 10799 := U(5585)]
    case 10 => map[48 := L(25), 73 := L(10626), 10699 := L(40), 10739 := L(60), 10799 := L(5585)]
    case 11 => map[48 := L(25), 73 := L(10626), 10699 := F(40), 10739 := L(60), 10799 := L(5585)]
    case 12 => map[48 := L(25), 73 := L(10626), 10699 := F(100), 10799 := L(5585)]
    case 13 => map[48 := L(25), 73 := F(10726), 10799 := L(5585)]
    case 14 => map[48 := L(25), 73 := U(200), 273 := F(10526), 10799 := L(5585)]
    case 15 => map[48 := L(25), 73 := L(200), 273 := F(10526), 10799 := L(5585)]
    case 16 => map[48 := L(25), 73 := L(200), 273 := U(10434), 10707 := F(92), 10799 := L(5585)]
    case 17 => map[48 := L(25), 73 := L(200), 273 := L(10434), 10707 := F(92), 10799 := L(5585)]
    case 18 => map[48 := L(25), 73 := L(200), 273 := L(10434), 10707 := U(32), 10739 := F(60), 10799 := L(5585)]
    case 19 => map[48 := L(25), 73 := L(200), 273 := L(10434), 10707 := L(32), 10739 := F(60), 10799 := L(5585)]
    case 20 => map[48 := L(25), 73 := L(200), 273 := L(10434), 10707 := L(32), 10739 := U(60), 10799 := L(5585)]
    case 21 => map[48 := L(25), 73 := L(200), 273 := L(10434), 10707 := L(32), 10739 := L(60), 10799 := L(5585)]
    case _ => map[48 := L(25), 73 := L(200), 273 := F(10434), 10707 := L(32), 10739 := L(60), 10799 := L(5585)]
  }

  // And the free list.
  function PlanFree(k: nat): seq<nat> {
    match k
    case 0 => [48]
    case 1 => [73]
    case 2 => [73]
    case 3 => [10699]
    case 4 => [10699]
    case 5 => [10739]
    case 6 => [10739]
    case 7 => [10799]
    case 8 => [10799]
    case 11 => [10699]
    case 12 => [10699]
    case 13 => [73]
    case 14 => [273]
    case 15 => [273]
    case 16 => [10707]
    case 17 => [10707]
    case 18 => [10739]
    case 19 => [10739]
    case 22 => [273]
    case _ => []
  }

  // What is known of the bytes: nothing reads as a tag before the blocks that are
  // freed while nothing free is behind them; the tag of the free 40 bytes at 10699
  // stays where it is; and the last free block carries its own.
  ghost predicate Marks(m: Buffer, k: nat) {
    && |m| == END
    && (k <= 12 ==> m[61] == 0) && (k <= 10 ==> m[10687] == 0) && (k <= 21 ==> m[261] == 0)
    && (11 <= k ==> FootAt(m, 10739) == 40) && (22 <= k ==> FootAt(m, 10707) == 10434)
  }

  ghost predicate Stage(x: State, max: nat, k: nat) { At(x, max, Plan(k), PlanFree(k)) && Marks(x.mem, k) }

  // Records at c and tags that end at e are clear of [lo, hi).
  ghost predicate Clear(c: set<nat>, e: set<nat>, lo: nat, hi: nat) {
    (forall x :: x in c ==> hi <= x || x + 13 <= lo) && (forall x :: x in e ==> hi + FOOT <= x || x <= lo)
  }

  // They are clear of the marks that are still of use after the k-th action.
  ghost predicate ClearOfMarks(k: nat, c: set<nat>, e: set<nat>) {
    && Clear(c, e, 261, 262) && (k < 12 ==> Clear(c, e, 61, 62)) && (k < 10 ==> Clear(c, e, 10687, 10688))
    && (11 <= k ==> Clear(c, e, 10727, 10739))
  }

  // The marks outlast an action that touches other places.
  lemma MarksStay(m: Buffer, r: Buffer, k: nat, c: set<nat>, e: set<nat>)
    requires Marks(m, k) && Touched(m, r, 4, c, e) && |r| == END && k != 10 && k < 21 && ClearOfMarks(k, c, e)
    ensures Marks(r, k + 1)
  {
    hide Touched, FootAt;
    Untouched(m, r, 4, c, e, 261, 262);
    if k < 12 {
      Untouched(m, r, 4, c, e, 61, 62);
    }
    if k < 10 {
      Untouched(m, r, 4, c, e, 10687, 10688);
    }
    if 11 <= k {
      Untouched(m, r, 4, c, e, 10727, 10739);
      FootSame(m, r, 10739);
    }
  }

  // Taking n bytes from the free block c is clear of the marks.
  ghost predicate TakeClear(k: nat, c: nat, n: nat)
    requires c in Plan(k)
  {
    ClearOfMarks(k, {c, c + n}, {c + Plan(k)[c].size})
  }

  lemma TakeStage(x: State, max: nat, k: nat, c: nat, n: nat, e: Event, y: State)
    requires WF(x.s) && Next(x, e, y) && 14 <= n && e == Event.Alloc(1, n - 5)
    requires Stage(x, max, k) && k != 10 && k < 21 && PlanFree(k) == [c] && c in Plan(k) && n <= Plan(k)[c].size
    requires TakenBlocks(Plan(k), c, n) == Plan(k + 1) && TakenFree(Plan(k), c, n) == PlanFree(k + 1)
    requires TakeClear(k, c, n)
    ensures Stage(y, max, k + 1)
  {
    hide WF, Runs.Sound, Plan, PlanFree, TakenBlocks, TakenFree, Touched, ClearOfMarks, Marks, At;
    Takes(x, max, Plan(k), c, n, e, y);
    MarksStay(x.mem, y.mem, k, {c, c + n}, {c + Plan(k)[c].size});
  }

  lemma LinkStage(x: State, max: nat, k: nat, a: nat, y: State)
    requires WF(x.s) && Next(x, Event.Link(a), y)
    requires Stage(x, max, k) && k != 10 && k < 21 && LiveAt(Plan(k), a) && Plan(k)[a].kind.typ == 1
    requires LinkedBlocks(Plan(k), a) == Plan(k + 1) && PlanFree(k) == PlanFree(k + 1)
    requires ClearOfMarks(k, {a}, {})
    ensures Stage(y, max, k + 1)
  {
    hide WF, Runs.Sound, Plan, PlanFree, LinkedBlocks, Touched, ClearOfMarks, Marks, At;
    IsLinked(x, max, Plan(k), PlanFree(k), a, y);
    MarksStay(x.mem, y.mem, k, {a}, {});
  }

  // The allocations and links among the actions, before the first free and after the third.
  predicate Takes1(k: nat) { k in {0, 2, 4, 6, 8, 13, 15, 17, 19} }

  predicate Links1(k: nat) { k in {1, 3, 5, 7, 9, 14, 16, 18, 20} }

  // Where the k-th action, an allocation, takes its block, and of what size.
  function Place(k: nat): nat {
    match k
    case 0 => 48
    case 2 => 73
    case 4 => 10699
    case 6 => 10739
    case 8 => 10799
    case 13 => 73
    case 15 => 273
    case 17 => 10707
    case _ => 10739
  }

  function Wish(k: nat): nat {
    match k
    case 0 => 25
    case 2 => 10626
    case 4 => 40
    case 6 => 60
    case 8 => 5585
    case 13 => 200
    case 15 => 10434
    case 17 => 32
    case _ => 60
  }

  lemma PlanTakes(k: nat)
    requires Takes1(k)
    ensures var c, n := Place(k), Wish(k);
      && PlanFree(k) == [c] && c in Plan(k) && 14 <= n <= Plan(k)[c].size
      && TakenBlocks(Plan(k), c, n) == Plan(k + 1) && TakenFree(Plan(k), c, n) == PlanFree(k + 1)
      && TakeClear(k, c, n) && |Client()| == 23 && Client()[k] == Event.Alloc(1, n - 5)
  {
    if k <= 8 {
      PlanTakesEarly(k);
    } else if k < 17 {
      PlanTakesMiddle(k);
    } else {
      PlanTakesLate(k);
    }
  }

  lemma PlanTakesEarly(k: nat)
    requires Takes1(k) && k <= 8
    ensures var c, n := Place(k), Wish(k);
      && PlanFree(k) == [c] && c in Plan(k) && 14 <= n <= Plan(k)[c].size
      && TakenBlocks(Plan(k), c, n) == Plan(k + 1) && TakenFree(Plan(k), c, n) == PlanFree(k + 1)
      && TakeClear(k, c, n) && |Client()| == 23 && Client()[k] == Event.Alloc(1, n - 5)
  {
  }

  lemma PlanTakesMiddle(k: nat)
    requires Takes1(k) && 8 < k < 17
    ensures var c, n := Place(k), Wish(k);
      && PlanFree(k) == [c] && c in Plan(k) && 14 <= n <= Plan(k)[c].size
      && TakenBlocks(Plan(k), c, n) == Plan(k + 1) && TakenFree(Plan(k), c, n) == PlanFree(k + 1)
      && TakeClear(k, c, n) && |Client()| == 23 && Client()[k] == Event.Alloc(1, n - 5)
  {
  }

  lemma PlanTakesLate(k: nat)
    requires Takes1(k) && 17 <= k
    ensures var c, n := Place(k), Wish(k);
      && PlanFree(k) == [c] && c in Plan(k) && 14 <= n <= Plan(k)[c].size
      && TakenBlocks(Plan(k), c, n) == Plan(k + 1) && TakenFree(Plan(k), c, n) == PlanFree(k + 1)
      && TakeClear(k, c, n) && |Client()| == 23 && Client()[k] == Event.Alloc(1, n - 5)
  {
  }

  lemma PlanLinks(k: nat)
    requires Links1(k)
    ensures var a := Place(k - 1);
      && a in Plan(k) && LiveAt(Plan(k), a) && Plan(k)[a].kind.typ == 1
      && LinkedBlocks(Plan(k), a) == Plan(k + 1) && PlanFree(k) == PlanFree(k + 1)
      && ClearOfMarks(k, {a}, {}) && |Client()| == 23 && Client()[k] == Event.Link(a)
  {
  }

  // ---- the frees ------------------------------------------------------------------------------

  lemma TagHere(y: State, b: nat)
    requires Told(y) && b in y.s.tagged
    ensures b in y.s.blk && FootAt(y.mem, EndOf(y.s.blk, b)) == y.s.blk[b].size
  {
    hide Tiles, Listed, BlocksOk, LinksOk, FootAt;
  }

  // What a free touches, spelled out.
  lemma FreeSpots(x: State, y: State, a: nat, c: set<nat>, e: set<nat>)
    requires FreeTouches(x.mem, y.mem, x.s, a) && x.s.w == 4 && a in c
    requires forall b :: FreeAt(x.s.blk, b) ==> b in c
    requires forall b :: b in x.s.blk && (b == a || (a < b && FreeAt(x.s.blk, b))) ==> EndOf(x.s.blk, b) in e
    ensures Touched(x.mem, y.mem, 4, c, e)
  {
    hide Touched;
    TouchedMore(x.mem, y.mem, 4, FreeStarts(x.s.blk) + {a}, EndsFrom(x.s.blk, a), c, e);
  }

  // Nothing reads as a tag in front of a, whose blocks foreseen are t's.
  lemma BlankHere(x: State, a: nat, b: nat)
    requires WF(x.s) && LiveAt(x.s.blk, a) && Told(x) && b < a && LiveAt(x.s.blk, b)
    requires b + FOOT <= a == EndOf(x.s.blk, b) && a - FOOT < |x.mem| && x.mem[a - FOOT] == 0
    ensures Sight(x.mem, x.s, a) == 0 && !Misled(x.mem, x.s, a)
  {
    hide WF, Forward, InLinks, Sight, Misled;
    LengthHere(x);
    TileFacts(x.s, a, a);
    ForwardSize(x.s, a, b);
    ForwardWidth(x.s, a);
    ForwardSound(x.s, a);
    ClearOfLinks(Forward(x.s, a), b, a - FOOT);
    SightBlank(x.mem, x.s, a);
  }

  lemma ForwardSound(s: Heap, a: nat)
    requires WF(s) && LiveAt(s.blk, a)
    ensures WF(Forward(s, a))
  {
  }

  // The free of a block with live blocks on both sides.
  lemma FreeAlone(x: State, max: nat, blk: Blocks, free: seq<nat>, a: nat, b: nat, y: State)
    requires WF(x.s) && Next(x, Event.Free(a), y) && At(x, max, blk, free) && Freeable(blk, a)
    requires b < a && LiveAt(blk, b) && b + FOOT <= a == EndOf(blk, b) && |x.mem| == END && a < END
      && x.mem[a - FOOT] == 0
    requires LiveAt(blk, EndOf(blk, a)) && 26 <= blk[a].size
    ensures !Misled(x.mem, x.s, a)
    ensures At(y, max, BackBlocks(blk, a), [a] + free) && FootAt(y.mem, EndOf(blk, a)) == blk[a].size
    ensures FreeTouches(x.mem, y.mem, x.s, a) && |y.mem| == END
  {
    hide WF, Told, FreeTouches, Forward, Misled, Sight, Runs.Sound, FootAt;
    SoundWF(x);
    BlankHere(x, a, b);
    FreedStraight(x, max, blk, free, a, y);
    EndHere(x.s, a);
    ForwardAlone(x.s, a);
    SoundWF(y);
    TagHere(y, a);
  }

  lemma EndHere(s: Heap, a: nat)
    requires WF(s) && a in s.blk && EndOf(s.blk, a) in s.blk
    ensures EndOf(s.blk, a) != s.end
  {
    NothingAtEnd(s.w, s.end, s.blk);
  }

  // A block freed behind the only free block p becomes part of it.
  lemma FreedBehind(s: Heap, a: nat, p: nat)
    requires WF(s) && s.free == [p] && LiveAt(s.blk, a) && FreeAt(s.blk, p) && EndOf(s.blk, p) == a
    requires LiveAt(s.blk, EndOf(s.blk, a))
    ensures var blk, t := s.blk, Forward(s, a);
      && FreeAt(t.blk, p) && p != a && Freed(s, a, p).free == [p]
      && Freed(s, a, p).blk == (BackBlocks(blk, a) - {a})[p := Block(blk[p].size + blk[a].size, Kind.Free)]
  {
    hide WF, Forward, Collate;
    TileFacts(s, a, a);
    TileFacts(s, p, p);
    EndHere(s, a);
    ForwardAlone(s, a);
    ForwardSound(s, a);
    ForwardWidth(s, a);
    PairCollates(Forward(s, a), p, a);
    assert [a] + [p] == [a, p] && Remove([a, p], a) == [p];
    assert p != 0 by { NoBlockAt(s, p); }
  }

  // The free of a block with a tagged free one in front of it.
  lemma FreeBehind(x: State, max: nat, blk: Blocks, a: nat, p: nat, y: State)
    requires WF(x.s) && Next(x, Event.Free(a), y) && At(x, max, blk, [p]) && Freeable(blk, a)
    requires FreeAt(blk, p) && EndOf(blk, p) == a && 26 <= blk[p].size && FootAt(x.mem, a) == blk[p].size
    requires LiveAt(blk, EndOf(blk, a))
    ensures !Misled(x.mem, x.s, a)
    ensures At(y, max, (BackBlocks(blk, a) - {a})[p := Block(blk[p].size + blk[a].size, Kind.Free)], [p])
    ensures FreeTouches(x.mem, y.mem, x.s, a) && |x.mem| == |y.mem| == END
  {
    hide WF, Told, FreeTouches, Misled, Sight, Runs.Sound, FootAt, Forward, Freed, Next;
    SoundWF(x);
    SightTaggedHere(x, a, p);
    FreedStraight(x, max, blk, [p], a, y);
    FreedBehind(x.s, a, p);
  }

  lemma SightTaggedHere(x: State, a: nat, p: nat)
    requires WF(x.s) && Told(x) && LiveAt(x.s.blk, a) && FreeAt(x.s.blk, p) && EndOf(x.s.blk, p) == a
    requires FootMin(x.s.w) <= x.s.blk[p].size && FootAt(x.mem, a) == x.s.blk[p].size
    ensures Sight(x.mem, x.s, a) == p && !Misled(x.mem, x.s, a) && p != 0
  {
    hide WF, Mirrors, Misled, Sight, FootAt;
    SightTagged(x.mem, x.s, a, p);
    TileFacts(x.s, p, p);
  }

  // The free of a block with a free one behind it, the only one.
  lemma FreeBefore(x: State, max: nat, blk: Blocks, a: nat, n: nat, b: nat, y: State)
    requires WF(x.s) && Next(x, Event.Free(a), y) && At(x, max, blk, [n]) && Freeable(blk, a)
    requires b < a && LiveAt(blk, b) && b + FOOT <= a == EndOf(blk, b) && |x.mem| == END && a < END
      && x.mem[a - FOOT] == 0
    requires n == EndOf(blk, a) && FreeAt(blk, n) && LiveAt(blk, EndOf(blk, n))
    ensures !Misled(x.mem, x.s, a)
    ensures At(y, max, JoinedBlocks(blk, a, n), [a])
    ensures FreeTouches(x.mem, y.mem, x.s, a) && |y.mem| == END
  {
    hide WF, Told, FreeTouches, Forward, Misled, Sight, Runs.Sound;
    SoundWF(x);
    BlankHere(x, a, b);
    FreedStraight(x, max, blk, [n], a, y);
    EndHere(x.s, n);
    ForwardPair(x.s, a, n);
    assert Remove([n], n) == [];
  }

  lemma ByteStays(m: Buffer, r: Buffer, c: set<nat>, e: set<nat>, i: nat)
    requires Touched(m, r, 4, c, e) && |m| == |r| && i < |m| && Clear(c, e, i, i + 1)
    ensures m[i] == r[i]
  {
    hide Touched;
    Untouched(m, r, 4, c, e, i, i + 1);
  }

  lemma TagStays(m: Buffer, r: Buffer, c: set<nat>, e: set<nat>, i: nat)
    requires Touched(m, r, 4, c, e) && |m| == |r| && FOOT <= i <= |m| && Clear(c, e, i - FOOT, i)
    ensures FootAt(m, i) == FootAt(r, i)
  {
    hide Touched, FootAt;
    Untouched(m, r, 4, c, e, i - FOOT, i);
    FootSame(m, r, i);
  }

  // The plan of a free of a whose neighbours are live, b in front, touching c and e.
  ghost predicate PlanAlone(k: nat, a: nat, b: nat, c: set<nat>, e: set<nat>) {
    var blk := Plan(k);
    && Freeable(blk, a) && b < a < END && LiveAt(blk, b) && b + FOOT <= a == EndOf(blk, b)
    && LiveAt(blk, EndOf(blk, a)) && 26 <= blk[a].size && PlanFree(k) == []
    && BackBlocks(blk, a) == Plan(k + 1) && PlanFree(k + 1) == [a] && FreeReach(blk, a, c, e)
  }

  ghost predicate FreeReach(blk: Blocks, a: nat, c: set<nat>, e: set<nat>) {
    && a in c && (forall b :: FreeAt(blk, b) ==> b in c)
    && (forall b :: b in blk && (b == a || (a < b && FreeAt(blk, b))) ==> EndOf(blk, b) in e)
  }

  lemma StageAlone(x: State, max: nat, k: nat, a: nat, b: nat, c: set<nat>, e: set<nat>, y: State)
    requires WF(x.s) && Freeable(x.s.blk, a) && Next(x, Event.Free(a), y)
    requires PlanAlone(k, a, b, c, e) && At(x, max, Plan(k), PlanFree(k))
    requires |x.mem| == END && x.mem[a - FOOT] == 0
    ensures !Misled(x.mem, x.s, a) && At(y, max, Plan(k + 1), PlanFree(k + 1)) && |y.mem| == END
    ensures a in Plan(k) && FootAt(y.mem, EndOf(Plan(k), a)) == Plan(k)[a].size && Touched(x.mem, y.mem, 4, c, e)
  {
    hide WF, FreeTouches, Misled, Runs.Sound, FootAt, Touched, Plan, PlanFree, Next;
    FreeAlone(x, max, Plan(k), [], a, b, y);
    FreeSpots(x, y, a, c, e);
    assert [a] + [] == [a];
  }

  lemma PlanFirst()
    ensures PlanAlone(10, 10699, 73, {10699}, {10739})
    ensures EndOf(Plan(10), 10699) == 10739 && Plan(10)[10699].size == 40
  {
  }

  lemma PlanLast()
    ensures PlanAlone(21, 273, 73, {273}, {10707})
    ensures EndOf(Plan(21), 273) == 10707 && Plan(21)[273].size == 10434
  {
  }

  // The free of the 40 bytes leaves the tag that will lead astray.
  lemma Stage10(x: State, max: nat, y: State)
    requires WF(x.s) && Freeable(x.s.blk, 10699) && Next(x, Event.Free(10699), y)
    requires Stage(x, max, 10)
    ensures !Misled(x.mem, x.s, 10699) && Stage(y, max, 11)
  {
    hide WF, Misled, FootAt, Touched, Plan, PlanFree, At, PlanAlone, Next;
    PlanFirst();
    StageAlone(x, max, 10, 10699, 73, {10699}, {10739}, y);
    ByteStays(x.mem, y.mem, {10699}, {10739}, 61);
    ByteStays(x.mem, y.mem, {10699}, {10739}, 261);
  }

  // The free of the 10434 bytes writes the tag whose size reads as a header.
  lemma Stage21(x: State, max: nat, y: State)
    requires WF(x.s) && Freeable(x.s.blk, 273) && Next(x, Event.Free(273), y)
    requires Stage(x, max, 21)
    ensures !Misled(x.mem, x.s, 273) && Stage(y, max, 22)
  {
    hide WF, Misled, FootAt, Touched, Plan, PlanFree, At, PlanAlone, Next;
    PlanLast();
    StageAlone(x, max, 21, 273, 73, {273}, {10707}, y);
    TagStays(x.mem, y.mem, {273}, {10707}, 10739);
  }

  lemma PlanMerges()
    ensures var blk, p, a := Plan(11), 10699, 10739;
      && Freeable(blk, a) && FreeAt(blk, p) && EndOf(blk, p) == a && blk[p].size == 40 && LiveAt(blk, EndOf(blk, a))
      && (BackBlocks(blk, a) - {a})[p := Block(blk[p].size + blk[a].size, Kind.Free)] == Plan(12)
      && PlanFree(11) == [p] == PlanFree(12) && FreeReach(blk, a, {10699, 10739}, {10799})
    ensures var blk, n, a := Plan(12), 10699, 73;
      && Freeable(blk, a) && FreeAt(blk, n) && EndOf(blk, a) == n && LiveAt(blk, EndOf(blk, n)) && LiveAt(blk, 48)
      && EndOf(blk, 48) == a && JoinedBlocks(blk, a, n) == Plan(13)
      && PlanFree(12) == [n] && PlanFree(13) == [a] && FreeReach(blk, a, {73, 10699}, {10699, 10799})
  {
  }

  // The free of the 60 bytes behind it merges them and leaves that tag inside.
  lemma Stage11(x: State, max: nat, y: State)
    requires WF(x.s) && Freeable(x.s.blk, 10739) && Next(x, Event.Free(10739), y)
    requires Stage(x, max, 11)
    ensures !Misled(x.mem, x.s, 10739) && Stage(y, max, 12)
  {
    hide WF, FreeTouches, Misled, Runs.Sound, FootAt, Touched, Plan, PlanFree, Next;
    PlanMerges();
    FreeBehind(x, max, Plan(11), 10739, 10699, y);
    FreeSpots(x, y, 10739, {10699, 10739}, {10799});
    ByteStays(x.mem, y.mem, {10699, 10739}, {10799}, 61);
    ByteStays(x.mem, y.mem, {10699, 10739}, {10799}, 261);
    TagStays(x.mem, y.mem, {10699, 10739}, {10799}, 10739);
  }

  // The free of the 10626 bytes in front merges them too.
  lemma Stage12(x: State, max: nat, y: State)
    requires WF(x.s) && Freeable(x.s.blk, 73) && Next(x, Event.Free(73), y)
    requires Stage(x, max, 12)
    ensures !Misled(x.mem, x.s, 73) && Stage(y, max, 13)
  {
    hide WF, FreeTouches, Misled, Runs.Sound, FootAt, Touched, Plan, PlanFree, Next;
    PlanMerges();
    FreeBefore(x, max, Plan(12), 73, 10699, 48, y);
    FreeSpots(x, y, 73, {73, 10699}, {10699, 10799});
    ByteStays(x.mem, y.mem, {73, 10699}, {10699, 10799}, 261);
    TagStays(x.mem, y.mem, {73, 10699}, {10699, 10799}, 10739);
  }

  // ---- the last free --------------------------------------------------------------------------

  // The size in the tag of the free 10434 bytes reads as the header of 40 free bytes.
  lemma TagReadsAsHeader(m: Buffer)
    requires |m| == END && FootAt(m, 10707) == 10434
    ensures LooksFree(m, 4, 10699, 40)
  {
    GetNext(m, 10699, 8);
    GetNext(m, 10699, 1);
    GetSplit(m, 10700, 7, 4);
    assert Range(4) == 0x1_0000_0000;
    assert Get(m, 10699, 1) == 194 && Get(m, 10700, 4) == 40 by {
      assert m[10700..10700] == [];
    }
  }

  lemma LooksSame(m: Buffer, r: Buffer, w: nat, q: nat, z: nat)
    requires SameOn(m, r, q, q + HeaderSize(w)) && LooksFree(m, w, q, z)
    ensures LooksFree(r, w, q, z)
  {
    hide AddressBits, AllocBit, LinkedBit, TypeBits;
    GetSame(m, r, q, 1);
    GetSame(m, r, q + 1, w);
  }

  // What the last free finds: blocks around, and the free block the header lies in.
  lemma PlanAstray()
    ensures var blk := Plan(22);
      && Freeable(blk, 10739) && LiveAt(blk, EndOf(blk, 10739)) && 10707 in blk && EndOf(blk, 10707) == 10739
      && 26 <= blk[10707].size && FreeAt(blk, 273) && EndOf(blk, 273) == 10707 && 10699 !in blk
      && blk[10739].size == 60 && PlanFree(22) == [273]
  {
  }

  lemma HeaderClear(x: State, i: nat)
    requires WF(x.s) && x.s.w == 4 && LiveAt(x.s.blk, 10739) && FreeAt(x.s.blk, 273) && EndOf(x.s.blk, 273) == 10707
    requires 10699 <= i < 10704
    ensures !InLinks(4, Forward(x.s, 10739).blk, i)
  {
    hide WF, Forward;
    ForwardSize(x.s, 10739, 273);
    ForwardWidth(x.s, 10739);
    ForwardSound(x.s, 10739);
    ClearOfLinks(Forward(x.s, 10739), 273, i);
  }

  // The tag foreseen in front of the last block names 40, and what it leads to reads
  // as 40 free bytes.
  lemma LastSight(x: State)
    requires WF(x.s) && Told(x) && x.s.w == 4 && x.s.end == END && Freeable(x.s.blk, 10739)
    requires 10707 in x.s.blk && EndOf(x.s.blk, 10707) == 10739 && 26 <= x.s.blk[10707].size
    requires FreeAt(x.s.blk, 273) && EndOf(x.s.blk, 273) == 10707
    requires FootAt(x.mem, 10739) == 40 && FootAt(x.mem, 10707) == 10434
    ensures var v := Foreseen(x.mem, x.s, 10739); FootAt(v, 10739) == 40 && LooksFree(v, 4, 10699, 40)
  {
    hide WF, Forward, Foreseen, FootAt, LooksFree, InLinks;
    LengthHere(x);
    TagForeseen(x.mem, x.s, 10739, 10707);
    TagReadsAsHeader(x.mem);
    forall i: nat {:trigger InLinks(4, Forward(x.s, 10739).blk, i)} | 10699 <= i < 10704
      ensures !InLinks(4, Forward(x.s, 10739).blk, i)
    {
      HeaderClear(x, i);
    }
    ForeseenSame(x.mem, x.s, 10739, 10699, 10704);
    LooksSame(x.mem, Foreseen(x.mem, x.s, 10739), 4, 10699, 40);
  }

  lemma LastMisled(x: State)
    requires WF(x.s) && Told(x) && x.s.w == 4 && x.s.end == END && Freeable(x.s.blk, 10739) && 10699 !in x.s.blk
    requires var v := Foreseen(x.mem, x.s, 10739); FootAt(v, 10739) == 40 && LooksFree(v, 4, 10699, 40)
    ensures Misled(x.mem, x.s, 10739) && Sight(x.mem, x.s, 10739) == 10699
  {
    hide WF, Forward, Foreseen, FootAt, LooksFree, ComesBy;
    TileFacts(x.s, 10739, 10739);
    ComesByForeseen(x.mem, x.s, 10739, BASE, 10699);
  }

  lemma LastContained(x: State)
    requires WF(x.s) && x.s.w == 4 && x.s.end == END && x.s.free == [273] && Freeable(x.s.blk, 10739)
    requires LiveAt(x.s.blk, EndOf(x.s.blk, 10739)) && x.s.blk[10739].size == 60
    requires FreeAt(x.s.blk, 273) && EndOf(x.s.blk, 273) == 10707 && Sight(x.mem, x.s, 10739) == 10699
    ensures Steady(x.mem, x.s, 10739) && Contained(x.mem, x.s, 10739)
  {
    hide WF, Sight, Forward;
    EndHere(x.s, 10739);
    ForwardAlone(x.s, 10739);
    var t := Forward(x.s, 10739);
    ForwardWidth(x.s, 10739);
    assert 273 in t.blk && 273 + t.w <= 10699 && 10699 + 1 + t.w <= EndOf(t.blk, 273);
  }

  lemma Stage22(x: State, max: nat)
    requires Stage(x, max, 22)
    ensures WF(x.s) && Freeable(x.s.blk, 10739) && Misled(x.mem, x.s, 10739)
    ensures Steady(x.mem, x.s, 10739) && Contained(x.mem, x.s, 10739)
  {
    hide WF, Told, Misled, Sight, Steady, Contained, Runs.Sound, FootAt, Plan, PlanFree, Foreseen, LooksFree;
    SoundWF(x);
    PlanAstray();
    LastSight(x);
    LastMisled(x);
    LastContained(x);
  }

  // ---- the whole run ----------------------------------------------------------------------------

  lemma StageStart(x: State, max: nat)
    requires CreatedAs(x, 4, END - 8, max)
    ensures Stage(x, max, 0)
  {
    CreatedSound(x);
  }

  lemma Advance(x: State, max: nat, k: nat, e: Event, y: State)
    requires Stage(x, max, k) && k < 22 && |Client()| == 23 && e == Client()[k] && WF(x.s) && Next(x, e, y)
    ensures !Strays(x, e) && Stage(y, max, k + 1)
  {
    hide WF, Next, Misled, Stage, Plan, PlanFree, TakenBlocks, TakenFree, TakeClear, ClearOfMarks, LinkedBlocks;
    if Takes1(k) {
      PlanTakes(k);
      TakeStage(x, max, k, Place(k), Wish(k), e, y);
    } else if Links1(k) {
      PlanLinks(k);
      LinkStage(x, max, k, Place(k - 1), y);
    } else if k == 10 {
      FreeableAt(x, max, k, 10699);
      Stage10(x, max, y);
    } else if k == 11 {
      FreeableAt(x, max, k, 10739);
      Stage11(x, max, y);
    } else if k == 12 {
      FreeableAt(x, max, k, 73);
      Stage12(x, max, y);
    } else {
      FreeableAt(x, max, k, 273);
      Stage21(x, max, y);
    }
  }

  lemma FreeableAt(x: State, max: nat, k: nat, a: nat)
    requires Stage(x, max, k)
    requires || (k == 10 && a == 10699) || (k == 11 && a == 10739) || (k == 12 && a == 73)
             || (k == 21 && a == 273)
    ensures Freeable(x.s.blk, a)
  {
    hide Runs.Sound;
  }

  lemma {:induction false} StageAt(xs: seq<State>, es: seq<Event>, max: nat, k: nat)
    requires Trace(xs, es) && CreatedAs(xs[0], 4, END - 8, max) && es == Client() && k <= 22
    ensures |es| == 23 && |xs| == 24 && Stage(xs[k], max, k) && Straight(xs, es, k)
  {
    hide Stage, Client, Next, Strays, CreatedAs, WF, Created;
    ClientLength();
    if k == 0 {
      StageStart(xs[0], max);
    } else {
      StageAt(xs, es, max, k - 1);
      StageSound(xs[k - 1], max, k - 1);
      assert Goes(xs[k - 1], es[k - 1], xs[k]);
      Advance(xs[k - 1], max, k - 1, es[k - 1], xs[k]);
    }
  }

  lemma ClientLength()
    ensures |Client()| == 23 && Client()[22] == Event.Free(10739)
  {
  }

  lemma StageSound(x: State, max: nat, k: nat)
    requires Stage(x, max, k)
    ensures WF(x.s) && !x.astray && Runs.Sound(x)
  {
    hide Plan, PlanFree;
  }

  /** However the heap is created below its ceiling, these allocations, links and frees
      lead the last free astray, and then no heap at all is described. */
  lemma ClientAstray(xs: seq<State>, es: seq<Event>, max: nat)
    requires Trace(xs, es) && CreatedAs(xs[0], 4, END - 8, max) && es == Client()
    ensures |es| == 23 && |xs| == 24 && Straight(xs, es, 22) && WF(xs[22].s) && Strays(xs[22], es[22])
    ensures forall t: Heap :: !Describes(xs[23], t)
  {
    hide Stage, Client, Next, CreatedAs, WF, Created, Misled, Steady, Contained, Describes, Straight, FreedInto;
    ClientLength();
    StageAt(xs, es, max, 22);
    Stage22(xs[22], max);
    RunFree(xs, es, 22);
  }

  lemma StaleAt(x: State, max: nat, image: Buffer)
    requires Stage(x, max, 12) && FeetOnly(x.mem, image, 4, x.s.blk) && Blanked(image, 4, x.s.blk, x.s.free)
    ensures FootAt(image, 10739) == 40 && 10739 !in x.s.blk
  {
    hide FootAt, WF, FeetOnly, Blanked, Runs.Sound;
    StageSound(x, max, 12);
    PlanStale();
    StaleTags(x.mem, image, x.s, 10739);
  }

  lemma PlanStale()
    ensures 10739 !in Plan(12) && forall i: nat | 10727 <= i < 10739 :: !InFoot(4, Plan(12), i)
  {
  }

  /** An image taken after the second free holds the tag of a block that is none any more. */
  lemma StaleTagSaved(xs: seq<State>, es: seq<Event>, max: nat, image: Buffer)
    requires Trace(xs, es) && CreatedAs(xs[0], 4, END - 8, max) && es == Client()
    requires |xs| == 24 && FeetOnly(xs[12].mem, image, 4, xs[12].s.blk)
      && Blanked(image, 4, xs[12].s.blk, xs[12].s.free)
    ensures FootAt(image, 10739) == 40 && 10739 !in xs[12].s.blk
  {
    hide Client, Next, CreatedAs, Created, Straight, FootAt, WF, FeetOnly, Blanked, Stage;
    StageAt(xs, es, max, 12);
    StaleAt(xs[12], max, image);
  }

  // What the k-th action needs of the heap.
  lemma Able(x: State, max: nat, k: nat)
    requires Stage(x, max, k) && k <= 22 && |Client()| == 23
    ensures match Client()[k]
      case Alloc(typ, request) => 0 < typ < 16 && request < WORD
      case Link(a) => LiveAt(x.s.blk, a)
      case Free(a) => a in x.s.blk
      case _ => false
  {
    hide Runs.Sound, WF, TakenBlocks, TakenFree, ClearOfMarks, LinkedBlocks;
    if Takes1(k) {
      PlanTakes(k);
    } else if Links1(k) {
      PlanLinks(k);
    } else if k == 22 {
      PlanAstray();
    } else {
      FreeableAt(x, max, k, if k == 10 then 10699 else if k == 11 then 10739 else if k == 12 then 73 else 273);
    }
  }

  lemma TraceOn(xs: seq<State>, es: seq<Event>, e: Event, y: State)
    requires Trace(xs, es) && (WF(xs[|es|].s) ==> Next(xs[|es|], e, y))
    ensures Trace(xs + [y], es + [e])
  {
    hide Next, Created;
    forall i: nat {:trigger (es + [e])[i]} | i < |es + [e]|
      ensures Goes((xs + [y])[i], (es + [e])[i], (xs + [y])[i + 1])
    {
      if i < |es| {
        assert Goes(xs[i], es[i], xs[i + 1]);
      }
    }
  }

  // One action on a heap.
  method Act(h: BlockHeap, e: Event)
    requires h.Valid()
    requires match e
      case Alloc(typ, request) => 0 < typ < 16 && request < WORD
      case Link(a) => LiveAt(h.s.blk, a)
      case Free(a) => a in h.s.blk
      case _ => false
    modifies h
    ensures WF(old(h.s)) && Next(old(h.Now()), e, h.Now())
    ensures !Strays(old(h.Now()), e) ==> h.Valid()
  {
    hide Next, Misled, Mirrors, KeysOf, Forward, FreedInto;
    match e
    case Alloc(typ, request) => var _ := h.Alloc(typ, request);
    case Link(a) => h.Link(a);
    case Free(a) => var _ := h.Free(a);
  }

  /** Such a run exists: this is one. */
  method Rerun(max: nat) returns (h: BlockHeap, ghost xs: seq<State>)
    requires END <= max <= 0xFFFF_FFFF
    ensures fresh(h) && Trace(xs, Client()) && CreatedAs(xs[0], 4, END - 8, max)
    ensures |xs| == 24 && xs[23] == h.Now() && forall t: Heap :: !Describes(h.Now(), t)
  {
    hide Stage, Client, Next, CreatedAs, WF, Created, Strays, Mirrors, KeysOf, Describes, Trace;
    ClientLength();
    h := new BlockHeap(4, END - 8, max);
    xs := [h.Now()];
    StageStart(h.Now(), max);
    TraceStarts(h.Now(), max);
    var k := 0;
    while k < 22
      invariant k <= 22 && h.Valid() && fresh(h) && |xs| == k + 1 && xs[k] == h.Now() && Stage(h.Now(), max, k)
      invariant Trace(xs, Client()[..k]) && CreatedAs(xs[0], 4, END - 8, max)
    {
      ghost var x := h.Now();
      Able(x, max, k);
      StageSound(x, max, k);
      Act(h, Client()[k]);
      Advance(x, max, k, Client()[k], h.Now());
      TraceOn(xs, Client()[..k], Client()[k], h.Now());
      assert Client()[..k] + [Client()[k]] == Client()[..k + 1];
      xs := xs + [h.Now()];
      k := k + 1;
    }
    Able(h.Now(), max, 22);
    Act(h, Client()[22]);
    TraceOn(xs, Client()[..22], Client()[22], h.Now());
    xs := xs + [h.Now()];
    assert Client()[..22] + [Client()[22]] == Client();
    ClientAstray(xs, Client(), max);
  }

  lemma TraceStarts(x: State, max: nat)
    requires CreatedAs(x, 4, END - 8, max)
    ensures Trace([x], Client()[..0])
  {
    hide CreatedAs, Client;
  }
}
