/** What a client may do to a heap, and what state each action leads to. */
module Steps {
  import opened Allocator
  import opened Bytes
  import opened Founding
  import opened HeapModel
  import opened Inodes
  import opened Mirror
  import opened MirrorLive
  import opened MirrorSight
  import opened MirrorTake
  import opened Saving
  import opened Tally

  const WORD: nat := 0x1_0000_0000_0000_0000    // sizes are 64-bit

  datatype Grant = Give(a: nat, size: nat) | Deny(why: Refusal)

  /** The heap and the arena and key block that describe it, the count of bytes handed
      out, the inode stamp and the frees counted since it was minted; lost adds up the
      sizes of blocks whose freeing was refused.  Once a free was led astray s is the
      heap before it, and nothing more is said of what the client does. */
  datatype State = State(
    s: Heap,
    mem: Buffer,
    keys: Keys,
    used: nat,
    stamp: nat,
    frees: map<nat, nat>,
    lost: nat,
    astray: bool)

  datatype Event = Alloc(typ: nat, request: nat) | Link(a: nat) | Store(a: nat) | Free(a: nat) | Mint | Save

  /** x is a heap as it is created over initial bytes, plus 8, below the ceiling max. */
  ghost predicate CreatedAs(x: State, w: nat, initial: nat, max: nat) {
    && ValidWidth(w) && BASE + MinBlock(w) <= initial + 8 && initial <= max <= MaxAddress(w)
    && SoundSize(initial, max)
    && x == State(Fresh(w, max, initial + 8), x.mem, x.keys, 0, 0, map[], 0, false)
    && Told(x) && BlankBeyond(x.mem, w)
  }

  // What a request for payload comes to with its header, at least a minimum
  // block; a request near the top of the 64-bit range wraps.
  function Rounded(w: nat, request: nat): nat {
    var n := (request + HeaderSize(w)) % WORD;
    if n < MinBlock(w) then MinBlock(w) else n
  }

  predicate OverLimit(x: State, n: nat) { (x.used + n) % WORD > x.s.max }

  function Attempt(x: State, n: nat): Outcome
    requires WF(x.s) && MinBlock(x.s.w) <= n
  {
    Run(x.s, n, false, 0, MaxBlocks(x.s.w, x.s.end))
  }

  // What an allocation answers.
  function Reply(x: State, request: nat): Grant
    requires WF(x.s)
  {
    var n := Rounded(x.s.w, request);
    if OverLimit(x, n) then Deny(OverCeiling)
    else match Attempt(x, n)
         case Granted(t, a) => if a in t.blk then Give(a, t.blk[a].size) else Deny(ChosenLost)
         case Refused(t, why) => Deny(why)
  }

  // The arena and the key block of y describe its heap.
  ghost predicate Told(y: State) { Tells(y.mem, y.keys, y.s) }

  /** An allocation: the heap goes where the modelled one does, every live byte stays,
      and only fields and tags of free blocks are touched. */
  ghost predicate Allocates(x: State, typ: nat, request: nat, y: State)
    requires WF(x.s)
  {
    var n := Rounded(x.s.w, request);
    if OverLimit(x, n) then y == x
    else
      && Told(y) && LiveSame(x.mem, y.mem, x.s.blk) && TakeTouches(x.mem, y.mem, x.s, y.s)
      && match Attempt(x, n)
         case Granted(t, a) =>
           LiveAt(t.blk, a)
           && y == x.(s := Retype(t, a, Live(typ, false)), mem := y.mem, keys := y.keys,
                      used := (x.used + t.blk[a].size) % WORD)
         case Refused(t, why) => y == x.(s := t, mem := y.mem, keys := y.keys)
  }

  // The block at a is marked linked: one flag byte changes.
  ghost predicate Links(x: State, a: nat, y: State)
    requires LiveAt(x.s.blk, a)
  {
    Told(y) && SameOutside(x.mem, y.mem, a, a + 1) && y.s == Retype(x.s, a, Live(x.s.blk[a].kind.typ, true))
  }

  predicate Freeable(blk: Blocks, a: nat) { LiveAt(blk, a) && blk[a].kind.linked }

  // The frees counted once the block at a was given back.
  function Counted(x: State, a: nat): map<nat, nat> { if x.stamp != 0 then Bumped(x.frees, a) else x.frees }

  /** The block at a is given back.  What the look back answers is what the bytes say;
      when it is led astray, the arena is what the merge from there makes of it, unless
      that merge rewrites the header it starts from: then nothing is said. */
  ghost predicate GivesUp(x: State, a: nat, y: State)
    requires WF(x.s) && LiveAt(x.s.blk, a)
  {
    if Misled(x.mem, x.s, a) then
      && AstrayBy(x.mem, x.s, a, y.mem, y.keys)
      && y == x.(mem := y.mem, keys := y.keys, used := y.used, frees := Counted(x, a), astray := true)
    else
      && Told(y) && FreedBy(x.mem, y.mem, x.s, y.s, a)
      && y == x.(s := y.s, mem := y.mem, keys := y.keys, used := y.used, frees := Counted(x, a))
  }

  // Freeing a block that is not linked marks it linked and refuses; either way
  // the count of bytes handed out goes down.
  ghost predicate Frees(x: State, a: nat, y: State)
    requires WF(x.s) && a in x.s.blk
  {
    var size := x.s.blk[a].size;
    && y.used == (x.used + (WORD - size % WORD)) % WORD
    && if Freeable(x.s.blk, a) then GivesUp(x, a, y)
       else
         && (if LiveAt(x.s.blk, a) then Links(x, a, y) else y.s == x.s && y.mem == x.mem && y.keys == x.keys)
         && y == x.(s := y.s, mem := y.mem, keys := y.keys, used := y.used, lost := x.lost + size)
  }

  /** One action of a client. */
  ghost predicate Next(x: State, e: Event, y: State)
    requires WF(x.s)
  {
    match e
    case Alloc(typ, request) => 0 < typ < 16 && Allocates(x, typ, request, y)
    case Link(a) => LiveAt(x.s.blk, a) && Links(x, a, y) && y == x.(s := y.s, mem := y.mem, keys := y.keys)
    case Store(a) =>
      && LiveAt(x.s.blk, a) && Told(y) && y == x.(mem := y.mem)
      && SameOutside(x.mem, y.mem, a + HeaderSize(x.s.w), EndOf(x.s.blk, a))
    case Free(a) => a in x.s.blk && Frees(x, a, y)
    case Mint => if x.stamp != 0 then y == x else y.stamp != 0 && y == x.(stamp := y.stamp, frees := map[])
    case Save =>
      && Told(y) && FeetOnly(x.mem, y.mem, x.s.w, x.s.blk)
      && y == x.(s := Retagged(x.s), mem := y.mem, keys := y.keys)
  }

  /** A free that the tag in front of the block will lead astray.  It can be told before
      the call, from the arena and the free list. */
  predicate Strays(x: State, e: Event)
    requires WF(x.s)
  {
    e.Free? && Freeable(x.s.blk, e.a) && Misled(x.mem, x.s, e.a)
  }

  /** The arena and the key block of y describe the heap t over the same arena. */
  ghost predicate Describes(y: State, t: Heap) {
    t.w == y.s.w && t.max == y.s.max && t.end == y.s.end && Tells(y.mem, y.keys, t)
  }
}
