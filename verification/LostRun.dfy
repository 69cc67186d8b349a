/** A run whose count of bytes handed out drifts: a block is freed before it is linked. */
module LostRun {
  import opened Arena
  import opened HeapModel
  import opened MirrorLive
  import opened Runs
  import opened Steps
  import opened StrayRun
  import opened Tally

  /** Freeing a block that is not linked leaves the count of bytes handed out short by its
      size, if it was exact. */
  lemma UnlinkedFreeDrifts(x: State, a: nat, y: State)
    requires Runs.Sound(x) && x.lost % WORD == 0 && LiveAt(x.s.blk, a) && !x.s.blk[a].kind.linked
    requires Next(x, Event.Free(a), y)
    ensures y.lost % WORD != 0 && y.used < Sum(y.s).allocSize == Sum(x.s).allocSize
    ensures y.used + x.s.blk[a].size == Sum(y.s).allocSize
  {
    hide WF, Tidy, Told, Retype;
    SoundWF(x);
    HeldFits(x.s);
    HeldCovers(x.s, a);
    FreesUsed(x, a, y);
    FreeRefused(x, a, y);
    SmallLoss(x.used, x.lost, x.s.blk[a].size, Held(x.s));
  }

  lemma HeldCovers(s: Heap, a: nat)
    requires WF(s) && LiveAt(s.blk, a)
    ensures 0 < s.blk[a].size <= Held(s)
  {
    SumRelease(s, a);
    TileSize(s, a);
  }

  lemma TileSize(s: Heap, a: nat)
    requires WF(s) && a in s.blk
    ensures 0 < s.blk[a].size
  {
    assert Fits(s.w, s.end, s.blk, a);
  }

  lemma SmallLoss(used: nat, lost: nat, size: nat, held: nat)
    requires lost % WORD == 0 && used < WORD && (used + lost) % WORD == held && 0 < size <= held && held <= 0xFFFF_FFFF
    ensures (lost + size) % WORD != 0 && (used + (WORD - size)) % WORD == held - size
  {
    LostWord(used, lost, held);
    assert (lost + size) % WORD == size;
  }

  /** A run that gets there: a block is allocated and freed. */
  method Drift(max: nat) returns (h: BlockHeap, ghost xs: seq<State>)
    requires END <= max <= 0xFFFF_FFFF
    ensures fresh(h) && Trace(xs, [Event.Alloc(1, 20), Event.Free(48)]) && |xs| == 3 && xs[2] == h.Now()
    ensures h.lost % WORD != 0 && h.used < Sum(h.s).allocSize
  {
    hide Next, WF, Stage, CreatedAs, Created, Trace, Sum, Runs.Sound;
    h := new BlockHeap(4, END - 8, max);
    ghost var x := h.Now();
    StageStart(x, max);
    StageSound(x, max, 0);
    Act(h, Event.Alloc(1, 20));
    ghost var y := h.Now();
    FirstTaken(x, max, y);
    Act(h, Event.Free(48));
    UnlinkedFreeDrifts(y, 48, h.Now());
    DriftTrace(x, y, h.Now(), max);
    xs := [x, y, h.Now()];
  }

  lemma DriftTrace(x: State, y: State, z: State, max: nat)
    requires CreatedAs(x, 4, END - 8, max) && WF(x.s) && Next(x, Event.Alloc(1, 20), y)
    requires WF(y.s) && Next(y, Event.Free(48), z)
    ensures Trace([x, y, z], [Event.Alloc(1, 20), Event.Free(48)])
  {
    hide Next, WF, CreatedAs, Created, Trace;
    TraceStarts(x, max);
    NoneYet();
    TraceOn([x], [], Event.Alloc(1, 20), y);
    assert [x] + [y] == [x, y] && [] + [Event.Alloc(1, 20)] == [Event.Alloc(1, 20)];
    TraceOn([x, y], [Event.Alloc(1, 20)], Event.Free(48), z);
    assert [x, y] + [z] == [x, y, z];
    assert [Event.Alloc(1, 20)] + [Event.Free(48)] == [Event.Alloc(1, 20), Event.Free(48)];
  }

  lemma NoneYet()
    ensures Client()[..0] == []
  {
  }

  lemma FirstTaken(x: State, max: nat, y: State)
    requires Stage(x, max, 0) && WF(x.s) && Next(x, Event.Alloc(1, 20), y)
    ensures Runs.Sound(y) && WF(y.s) && y.lost == 0 && LiveAt(y.s.blk, 48) && !y.s.blk[48].kind.linked
  {
    hide Next, WF, Runs.Sound, Stage;
    ClientLength();
    Advance(x, max, 0, Event.Alloc(1, 20), y);
    StageSound(y, max, 1);
    FirstBlock(y, max);
  }

  lemma FirstBlock(y: State, max: nat)
    requires Stage(y, max, 1)
    ensures y.lost == 0 && LiveAt(y.s.blk, 48) && !y.s.blk[48].kind.linked
  {
    hide Runs.Sound;
  }
}
