/** The block heap as a value: which blocks tile the arena, in which order the
    free ones are linked, and which free blocks are known to carry a boundary
    tag.  Each function is one step of the allocator on that value; the lemmas
    say what every step keeps.  Module Arena performs the same steps on bytes. */
module HeapModel {

  const BASE: nat := 48            // offset of the first block, after the key block
  const FOOT: nat := 12            // bytes of a boundary tag: magic and size

  // Field width in bytes: 2, 4 or 8 for 16, 32 or 64-bit addressing.
  predicate ValidWidth(w: nat) { w == 2 || w == 4 || w == 8 }

  function MaxAddress(w: nat): nat { if w == 2 then 0xFFFF else 0xFFFF_FFFF }

  function HeaderSize(w: nat): nat { 1 + w }

  // Header, two links and the one payload byte the free block record declares.
  function MinBlock(w: nat): nat { 3 * w + 2 }

  function FootMin(w: nat): nat { MinBlock(w) + FOOT }

  datatype Kind = Free | Live(typ: nat, linked: bool)

  datatype Block = Block(size: nat, kind: Kind)

  // The blocks by offset.
  type Blocks = map<nat, Block>

  /** free is the free list from head to tail; tagged holds free blocks whose tag
      is certainly in place; root is the address the key block remembers as the
      first allocation. */
  datatype Heap = Heap(
    w: nat,
    max: nat,
    end: nat,
    blk: Blocks,
    free: seq<nat>,
    tagged: set<nat>,
    root: nat)

  predicate FreeAt(m: Blocks, a: nat) { a in m && m[a].kind.Free? }

  predicate LiveAt(m: Blocks, a: nat) { a in m && m[a].kind.Live? }

  function EndOf(m: Blocks, a: nat): nat
    requires a in m
  {
    a + m[a].size
  }

  // ---- tiling --------------------------------------------------------------

  ghost predicate Fits(w: nat, end: nat, m: Blocks, a: nat)
    requires a in m
  {
    BASE <= a && MinBlock(w) <= m[a].size && EndOf(m, a) <= end
  }

  // The block at a ends where another block starts, or at the end of the arena.
  ghost predicate Chained(end: nat, m: Blocks, a: nat)
    requires a in m
  {
    EndOf(m, a) == end || EndOf(m, a) in m
  }

  // No block starts inside another.
  ghost predicate Ordered(m: Blocks) {
    forall a, b :: a in m && b in m && a < b ==> EndOf(m, a) <= b
  }

  ghost predicate Tiles(w: nat, end: nat, m: Blocks) {
    && BASE in m
    && Ordered(m)
    && (forall a :: a in m ==> Fits(w, end, m, a))
    && (forall a {:trigger Chained(end, m, a)} :: a in m ==> Chained(end, m, a))
  }

  lemma NothingAtEnd(w: nat, end: nat, m: Blocks)
    requires Tiles(w, end, m)
    ensures end !in m
  {
    assert end in m ==> Fits(w, end, m, end);
  }

  // ---- the free list -------------------------------------------------------

  ghost predicate Distinct(q: seq<nat>) {
    forall i, j :: 0 <= i < j < |q| ==> q[i] != q[j]
  }

  ghost predicate Listed(m: Blocks, q: seq<nat>) {
    Distinct(q) && forall a :: a in q <==> FreeAt(m, a)
  }

  ghost predicate Tagged(w: nat, m: Blocks, tags: set<nat>) {
    forall a :: a in tags ==> FreeAt(m, a) && FootMin(w) <= m[a].size
  }

  /** Blocks tile [BASE, end) exactly and no address exceeds what a field can hold. */
  ghost predicate Laid(s: Heap) {
    && ValidWidth(s.w)
    && s.end <= s.max <= MaxAddress(s.w)
    && Tiles(s.w, s.end, s.blk)
    && Tagged(s.w, s.blk, s.tagged)
  }

  /** The blocks are laid out, and the free list holds exactly the free ones, each
      once. */
  ghost predicate WF(s: Heap) { Laid(s) && Listed(s.blk, s.free) }

  lemma WidthIs(s: Heap)
    requires WF(s)
    ensures ValidWidth(s.w)
  {
  }

  lemma NoBlockAtZero(s: Heap)
    requires WF(s)
    ensures 0 !in s.blk
  {
    assert forall a :: a in s.blk ==> Fits(s.w, s.end, s.blk, a);
  }

  /** A free block able to carry a tag is physically last, or carries it and has
      a live block behind it. */
  ghost predicate TidyAt(s: Heap, a: nat)
    requires a in s.blk
  {
    FootMin(s.w) <= s.blk[a].size ==>
      EndOf(s.blk, a) == s.end || (a in s.tagged && LiveAt(s.blk, EndOf(s.blk, a)))
  }

  ghost predicate Tidy(s: Heap) {
    forall a :: FreeAt(s.blk, a) ==> TidyAt(s, a)
  }

  /** The same live blocks, of the same size, type and linkage. */
  ghost predicate SameLive(m: Blocks, n: Blocks) {
    forall a :: (LiveAt(m, a) <==> LiveAt(n, a)) && (LiveAt(m, a) ==> m[a] == n[a])
  }

  // The first allocation has not been made yet, or has not been freed.
  ghost predicate RootSafe(s: Heap) { s.root == 0 || LiveAt(s.blk, s.root) }

  function Remove(q: seq<nat>, x: nat): (r: seq<nat>)
    ensures |r| <= |q|
    ensures forall y :: y in r ==> y in q
    ensures forall y :: y in q && y != x ==> y in r
  {
    if q == [] then [] else if q[0] == x then q[1..] else [q[0]] + Remove(q[1..], x)
  }

  function Replace(q: seq<nat>, x: nat, y: nat): (r: seq<nat>)
    ensures |r| == |q|
    ensures forall i :: 0 <= i < |q| ==> r[i] == if q[i] == x then y else q[i]
  {
    seq(|q|, i requires 0 <= i < |q| => if q[i] == x then y else q[i])
  }

  lemma {:induction false} RemoveAt(q: seq<nat>, j: nat)
    requires j < |q| && q[j] !in q[..j]
    ensures Remove(q, q[j]) == q[..j] + q[j+1..]
  {
    if j > 0 {
      var r := q[1..];
      assert r[j-1] == q[j] && r[..j-1] == q[1..j] && r[j..] == q[j+1..];
      assert q[0] == q[..j][0];
      assert forall y :: y in r[..j-1] ==> y in q[..j];
      RemoveAt(r, j - 1);
      assert [q[0]] + q[1..j] == q[..j];
    }
  }

  lemma RemoveDistinct(q: seq<nat>, x: nat)
    requires Distinct(q) && x in q
    ensures Distinct(Remove(q, x)) && x !in Remove(q, x) && |Remove(q, x)| == |q| - 1
  {
    hide Remove, Distinct;
    var j :| 0 <= j < |q| && q[j] == x;
    NotBefore(q, j);
    RemoveAt(q, j);
    CutDistinct(q, j);
  }

  lemma NotBefore(q: seq<nat>, j: nat)
    requires Distinct(q) && j < |q|
    ensures q[j] !in q[..j]
  {
  }

  lemma CutDistinct(q: seq<nat>, j: nat)
    requires Distinct(q) && j < |q|
    ensures var r := q[..j] + q[j+1..]; Distinct(r) && q[j] !in r && |r| == |q| - 1
  {
    var r := q[..j] + q[j+1..];
    assert forall i :: 0 <= i < |r| ==> r[i] == q[if i < j then i else i + 1];
  }

  // The members of q that are keys of a heap, in the order of q.
  function Keep(q: seq<nat>, keys: set<nat>): (r: seq<nat>)
    ensures |r| <= |q|
    ensures forall y :: y in r <==> y in q && y in keys
  {
    if q == [] then [] else if q[0] in keys then [q[0]] + Keep(q[1..], keys) else Keep(q[1..], keys)
  }

  lemma {:induction false} KeepKeep(q: seq<nat>, k: set<nat>, l: set<nat>)
    requires l <= k
    ensures Keep(Keep(q, k), l) == Keep(q, l)
  {
    if q != [] {
      KeepKeep(q[1..], k, l);
      if q[0] in k {
        assert Keep(q, k)[1..] == Keep(q[1..], k);
      }
    }
  }

  lemma {:induction false} KeepAll(q: seq<nat>, k: set<nat>)
    requires forall y :: y in q ==> y in k
    ensures Keep(q, k) == q
  {
    if q != [] {
      KeepAll(q[1..], k);
    }
  }

  lemma {:induction false} RemoveIsKeep(q: seq<nat>, x: nat, k: set<nat>)
    requires Distinct(q) && x !in k && (forall y :: y in q && y != x ==> y in k)
    ensures Remove(q, x) == Keep(q, k)
  {
    if q != [] {
      assert forall i, j :: 0 <= i < j < |q[1..]| ==> q[1..][i] == q[i+1] && q[1..][j] == q[j+1];
      assert q[0] !in q[1..];
      if q[0] == x {
        KeepAll(q[1..], k);
      } else {
        RemoveIsKeep(q[1..], x, k);
      }
    }
  }

  // Where the first-allocation address moves when x leaves the free list: to
  // its predecessor there if it has one, else to its successor.
  function RootAfter(root: nat, q: seq<nat>, x: nat): nat {
    if root != x then root else Neighbour(q, x)
  }

  function Neighbour(q: seq<nat>, x: nat): nat {
    if |q| < 2 then 0
    else if q[0] == x then q[1]
    else if q[1] == x then q[0]
    else Neighbour(q[1..], x)
  }

  // ---- collation -----------------------------------------------------------

  // The tag of a free block of the given size at a is written, if it has room.
  function Stamp(w: nat, tags: set<nat>, a: nat, size: nat): set<nat> {
    if FootMin(w) <= size then tags + {a} else tags
  }

  // The free block at a swallows the free block right behind it.
  function Join(m: Blocks, a: nat): Blocks
    requires FreeAt(m, a) && FreeAt(m, EndOf(m, a))
  {
    (m - {EndOf(m, a)})[a := Block(m[a].size + m[EndOf(m, a)].size, Free)]
  }

  function Absorb(s: Heap, a: nat): Heap
    requires FreeAt(s.blk, a) && FreeAt(s.blk, EndOf(s.blk, a))
  {
    var n := EndOf(s.blk, a);
    s.(blk := Join(s.blk, a),
       free := Remove(s.free, n),
       tagged := Stamp(s.w, s.tagged - {n}, a, s.blk[a].size + s.blk[n].size),
       root := RootAfter(s.root, s.free, n))
  }

  // The block at a grew over some free blocks behind it; the rest stand.
  ghost predicate Swallowed(m: Blocks, n: Blocks, a: nat) {
    && FreeAt(m, a) && FreeAt(n, a)
    && m[a].size <= n[a].size
    && (forall x :: x in n ==> x in m)
    && (forall x :: x in n && x != a ==> n[x] == m[x])
    && (forall x :: x in m && x !in n ==> FreeAt(m, x) && a < x && EndOf(m, x) <= EndOf(n, a))
  }

  lemma JoinSwallows(m: Blocks, a: nat)
    requires FreeAt(m, a) && FreeAt(m, EndOf(m, a)) && 0 < m[a].size
    ensures Swallowed(m, Join(m, a), a)
  {
  }

  lemma SwallowedOrder(m: Blocks, n: Blocks, a: nat)
    requires Ordered(m) && FreeAt(m, a) && FreeAt(m, EndOf(m, a)) && n == Join(m, a)
    ensures Ordered(n)
  {
  }

  lemma JoinTiles(w: nat, end: nat, m: Blocks, a: nat)
    requires Tiles(w, end, m) && FreeAt(m, a) && FreeAt(m, EndOf(m, a))
    ensures Tiles(w, end, Join(m, a))
  {
    var n := EndOf(m, a);
    var j := Join(m, a);
    assert Fits(w, end, m, a) && Fits(w, end, m, n);
    SwallowedOrder(m, j, a);
    assert EndOf(j, a) == EndOf(m, n) && n != BASE;
    forall x {:trigger Chained(end, j, x)} | x in j
      ensures Chained(end, j, x)
    {
      JoinChained(w, end, m, a, x);
    }
  }

  lemma JoinChained(w: nat, end: nat, m: Blocks, a: nat, x: nat)
    requires Tiles(w, end, m) && FreeAt(m, a) && FreeAt(m, EndOf(m, a)) && x in Join(m, a)
    ensures Chained(end, Join(m, a), x)
  {
    var n := EndOf(m, a);
    assert Fits(w, end, m, a) && Fits(w, end, m, n) && Chained(end, m, n);
    assert Chained(end, m, x) && Fits(w, end, m, x);
    assert x < a || x == a || n < x;
  }

  ghost predicate TagsKept(t: set<nat>, u: set<nat>, m: Blocks, a: nat) {
    && (forall x :: x in u && x != a ==> x in t)
    && (forall x :: x in t && x in m ==> x in u)
  }

  /** t is s after the free block at a swallowed some run of free blocks behind
      it: everything else is where it was, in the same list order, and the tags
      of the others are untouched. */
  ghost predicate Grown(s: Heap, t: Heap, a: nat) {
    && t.w == s.w && t.max == s.max && t.end == s.end
    && Swallowed(s.blk, t.blk, a)
    && t.free == Keep(s.free, t.blk.Keys)
    && TagsKept(s.tagged, t.tagged, t.blk, a)
    && (RootSafe(s) ==> t.root == s.root)
  }

  lemma JoinListed(m: Blocks, q: seq<nat>, a: nat)
    requires Listed(m, q) && FreeAt(m, a) && FreeAt(m, EndOf(m, a)) && 0 < m[a].size
    ensures Listed(Join(m, a), Remove(q, EndOf(m, a)))
    ensures Remove(q, EndOf(m, a)) == Keep(q, Join(m, a).Keys)
    ensures |Remove(q, EndOf(m, a))| == |q| - 1
  {
    RemoveDistinct(q, EndOf(m, a));
    RemoveIsKeep(q, EndOf(m, a), Join(m, a).Keys);
  }

  lemma FitsTiles(w: nat, end: nat, m: Blocks, a: nat)
    requires Tiles(w, end, m) && a in m
    ensures Fits(w, end, m, a)
  {
  }

  lemma AbsorbKeeps(s: Heap, a: nat)
    requires WF(s) && FreeAt(s.blk, a) && FreeAt(s.blk, EndOf(s.blk, a))
    ensures var t := Absorb(s, a); WF(t) && Grown(s, t, a) && |t.free| == |s.free| - 1
  {
    hide Tiles, Listed, Remove, Keep;
    assert 0 < s.blk[a].size by { FitsTiles(s.w, s.end, s.blk, a); }
    JoinTiles(s.w, s.end, s.blk, a);
    JoinSwallows(s.blk, a);
    JoinListed(s.blk, s.free, a);
  }

  lemma GrownSelf(s: Heap, a: nat)
    requires WF(s) && FreeAt(s.blk, a)
    ensures Grown(s, s, a)
  {
    KeepAll(s.free, s.blk.Keys);
  }

  lemma SwallowedChain(m: Blocks, n: Blocks, p: Blocks, a: nat)
    requires Swallowed(m, n, a) && Swallowed(n, p, a)
    ensures Swallowed(m, p, a)
  {
  }

  lemma GrownChain(s: Heap, t: Heap, u: Heap, a: nat)
    requires Grown(s, t, a) && Grown(t, u, a)
    ensures Grown(s, u, a)
  {
    SwallowedChain(s.blk, t.blk, u.blk, a);
    KeepKeep(s.free, t.blk.Keys, u.blk.Keys);
  }

  // Merge forwards until the next block is live or the arena ends.  A block
  // that is already physically last is left untagged.
  function Collate(s: Heap, a: nat): Heap
    requires WF(s) && FreeAt(s.blk, a)
    decreases |s.free|
  {
    var n := EndOf(s.blk, a);
    if n == s.end then s
    else if FreeAt(s.blk, n) then
      AbsorbKeeps(s, a);
      Collate(Absorb(s, a), a)
    else s.(tagged := Stamp(s.w, s.tagged, a, s.blk[a].size))
  }

  /** Collating leaves a well-formed heap with the same live blocks; the block
      at a has swallowed the whole run of free blocks behind it and is tagged
      unless it is physically last. */
  lemma {:induction false} CollateKeeps(s: Heap, a: nat)
    requires WF(s) && FreeAt(s.blk, a)
    ensures var t := Collate(s, a);
      WF(t) && Grown(s, t, a) && TidyAt(t, a) && !FreeAt(t.blk, EndOf(t.blk, a))
    decreases |s.free|
  {
    var n := EndOf(s.blk, a);
    NothingAtEnd(s.w, s.end, s.blk);
    GrownSelf(s, a);
    assert Chained(s.end, s.blk, a);
    if n != s.end && FreeAt(s.blk, n) {
      var t := Absorb(s, a);
      AbsorbKeeps(s, a);
      CollateKeeps(t, a);
      GrownChain(s, t, Collate(t, a), a);
    }
  }

  lemma SwallowedLive(m: Blocks, n: Blocks, a: nat)
    requires Swallowed(m, n, a)
    ensures SameLive(m, n)
  {
  }

  /** Every free block is tidy, except perhaps those in e. */
  ghost predicate TidyBut(s: Heap, e: set<nat>) {
    forall a :: FreeAt(s.blk, a) && a !in e ==> TidyAt(s, a)
  }

  lemma GrownTidy(s: Heap, t: Heap, a: nat, e: set<nat>)
    requires Grown(s, t, a) && TidyBut(s, e) && TidyAt(t, a)
    ensures TidyBut(t, e - {a})
  {
    forall x | FreeAt(t.blk, x) && x !in e - {a}
      ensures TidyAt(t, x)
    {
      if x != a {
        assert TidyAt(s, x);
      }
    }
  }

  // ---- taking a block from the free list -------------------------------------

  const PENDING: Kind := Live(0, false)   // handed over, not yet given its type

  // The front n bytes of the free block at a become a block of their own.
  function Carve(m: Blocks, a: nat, n: nat): Blocks
    requires FreeAt(m, a) && n <= m[a].size
  {
    m[a := Block(n, PENDING)][a + n := Block(m[a].size - n, Free)]
  }

  function Adopt(m: Blocks, a: nat): Blocks
    requires FreeAt(m, a)
  {
    m[a := Block(m[a].size, PENDING)]
  }

  predicate Splits(w: nat, m: Blocks, a: nat, n: nat)
    requires FreeAt(m, a) && n <= m[a].size
  {
    MinBlock(w) <= m[a].size - n
  }

  // Split the free block at a, or hand all of it over when the rest would be
  // too small to be a free block.
  function Take(s: Heap, a: nat, n: nat): Heap
    requires FreeAt(s.blk, a) && n <= s.blk[a].size
  {
    if Splits(s.w, s.blk, a, n) then
      s.(blk := Carve(s.blk, a, n),
         free := Replace(s.free, a, a + n),
         tagged := Stamp(s.w, s.tagged - {a}, a + n, s.blk[a].size - n))
    else
      s.(blk := Adopt(s.blk, a),
         free := Remove(s.free, a),
         tagged := s.tagged - {a},
         root := RootAfter(s.root, s.free, a))
  }

  lemma CarveOrder(m: Blocks, a: nat, n: nat)
    requires Ordered(m) && FreeAt(m, a) && 0 < n < m[a].size
    ensures a + n !in m && Ordered(Carve(m, a, n))
  {
  }

  lemma CarveChained(end: nat, m: Blocks, a: nat, n: nat, x: nat)
    requires FreeAt(m, a) && 0 < n < m[a].size && x in Carve(m, a, n)
    requires Chained(end, m, a) && (x in m ==> Chained(end, m, x))
    ensures Chained(end, Carve(m, a, n), x)
  {
  }

  lemma CarveTiles(w: nat, end: nat, m: Blocks, a: nat, n: nat)
    requires Tiles(w, end, m) && FreeAt(m, a)
    requires MinBlock(w) <= n <= m[a].size && Splits(w, m, a, n)
    ensures a + n !in m && Tiles(w, end, Carve(m, a, n))
  {
    var c := Carve(m, a, n);
    CarveOrder(m, a, n);
    assert Fits(w, end, m, a) && Chained(end, m, a);
    forall x {:trigger Chained(end, c, x)} | x in c
      ensures Chained(end, c, x)
    {
      assert x in m ==> Chained(end, m, x);
      CarveChained(end, m, a, n, x);
    }
  }

  lemma AdoptTiles(w: nat, end: nat, m: Blocks, a: nat)
    requires Tiles(w, end, m) && FreeAt(m, a)
    ensures Tiles(w, end, Adopt(m, a))
  {
    var c := Adopt(m, a);
    assert forall x :: x in c <==> x in m;
    forall x {:trigger Chained(end, c, x)} | x in c
      ensures Chained(end, c, x) && Fits(w, end, c, x)
    {
      assert Chained(end, m, x) && Fits(w, end, m, x);
    }
  }

  lemma CarveListed(m: Blocks, q: seq<nat>, a: nat, n: nat)
    requires Listed(m, q) && FreeAt(m, a) && 0 < n <= m[a].size && a + n !in m
    ensures Listed(Carve(m, a, n), Replace(q, a, a + n))
  {
    var c, r := Carve(m, a, n), Replace(q, a, a + n);
    var j :| 0 <= j < |q| && q[j] == a;
    assert r[j] == a + n;
    forall x
      ensures x in r <==> FreeAt(c, x)
    {
      if x in q && x != a {
        var i :| 0 <= i < |q| && q[i] == x;
        assert r[i] == x;
      }
      if x in r {
        var i :| 0 <= i < |r| && r[i] == x;
        assert q[i] in q;
      }
    }
    forall i, k | 0 <= i < k < |r|
      ensures r[i] != r[k]
    {
      assert q[i] in q && q[k] in q;
    }
  }

  lemma AdoptListed(m: Blocks, q: seq<nat>, a: nat)
    requires Listed(m, q) && FreeAt(m, a)
    ensures Listed(Adopt(m, a), Remove(q, a))
  {
    RemoveDistinct(q, a);
  }

  /** Taking gives a block of at least the size asked for, wasting less than a
      minimum block, and no other live block is touched. */
  lemma TakeKeeps(s: Heap, a: nat, n: nat)
    requires WF(s) && FreeAt(s.blk, a) && MinBlock(s.w) <= n <= s.blk[a].size
    ensures var t := Take(s, a, n);
      && WF(t) && a in t.blk && t.blk[a].kind == PENDING
      && n <= t.blk[a].size < n + MinBlock(s.w)
      && EndOf(t.blk, a) <= EndOf(s.blk, a)
      && SameLive(s.blk - {a}, t.blk - {a})
  {
    hide Tiles, Listed, Remove, Replace;
    if Splits(s.w, s.blk, a, n) {
      CarveTiles(s.w, s.end, s.blk, a, n);
      CarveListed(s.blk, s.free, a, n);
    } else {
      AdoptTiles(s.w, s.end, s.blk, a);
      AdoptListed(s.blk, s.free, a);
    }
  }

  lemma ReplaceAt(q: seq<nat>, j: nat, y: nat)
    requires Distinct(q) && j < |q|
    ensures Replace(q, q[j], y) == q[j := y]
  {
  }

  /** The front of the block is handed over.  What is left of it takes its place on the list
      if it is at least a minimum block, and else goes with it. */
  lemma TakeInList(s: Heap, n: nat, j: nat)
    requires WF(s) && j < |s.free| && FreeAt(s.blk, s.free[j]) && MinBlock(s.w) <= n <= s.blk[s.free[j]].size
    ensures var a := s.free[j]; var t, rest := Take(s, a, n), s.blk[a].size - n;
      if 3 * s.w + 2 <= rest then
        t.free == s.free[j := a + n] && a + n in t.blk && t.blk[a + n] == Block(rest, Free)
        && a in t.blk && t.blk[a].size == n
      else
        t.free == s.free[..j] + s.free[j + 1..] && a in t.blk && t.blk[a].size == s.blk[a].size
  {
    hide Tiles, Tagged, Remove, Replace, Distinct;
    NotBefore(s.free, j);
    RemoveAt(s.free, j);
    ReplaceAt(s.free, j, s.free[j] + n);
  }

  lemma TakeTidyAt(s: Heap, a: nat, n: nat, x: nat)
    requires WF(s) && FreeAt(s.blk, a) && MinBlock(s.w) <= n <= s.blk[a].size
    requires TidyAt(s, a) && (FreeAt(s.blk, x) ==> TidyAt(s, x)) && FreeAt(Take(s, a, n).blk, x)
    ensures TidyAt(Take(s, a, n), x)
  {
    hide Listed, Tagged, Remove, Replace, Fits, Chained, Ordered;
    if Splits(s.w, s.blk, a, n) {
      CarveOrder(s.blk, a, n);
    }
  }

  lemma TakeTidy(s: Heap, a: nat, n: nat)
    requires WF(s) && Tidy(s) && FreeAt(s.blk, a) && MinBlock(s.w) <= n <= s.blk[a].size
    ensures Tidy(Take(s, a, n))
  {
    forall x | FreeAt(Take(s, a, n).blk, x)
      ensures TidyAt(Take(s, a, n), x)
    {
      TakeTidyAt(s, a, n, x);
    }
  }

  // ---- growth and release ----------------------------------------------------

  // The arena gains one free block behind the last, at the tail of the list.
  function Grow(s: Heap, extra: nat): Heap {
    s.(blk := s.blk[s.end := Block(extra, Free)],
       free := s.free + [s.end],
       end := s.end + extra,
       tagged := Stamp(s.w, s.tagged, s.end, extra))
  }

  lemma GrowTiles(w: nat, end: nat, m: Blocks, extra: nat)
    requires Tiles(w, end, m) && MinBlock(w) <= extra
    ensures end !in m && Tiles(w, end + extra, m[end := Block(extra, Free)])
  {
    var g := m[end := Block(extra, Free)];
    NothingAtEnd(w, end, m);
    assert Fits(w, end, m, BASE);
    forall x {:trigger Chained(end + extra, g, x)} | x in g
      ensures Chained(end + extra, g, x) && Fits(w, end + extra, g, x)
    {
      assert x != end ==> Chained(end, m, x) && Fits(w, end, m, x);
    }
    assert forall x :: x in m ==> Fits(w, end, m, x);
  }

  lemma GrowKeeps(s: Heap, extra: nat)
    requires WF(s) && MinBlock(s.w) <= extra && s.end + extra <= s.max
    ensures var t := Grow(s, extra);
      && WF(t) && s.end !in s.blk && SameLive(s.blk, t.blk) && FreeAt(t.blk, s.end)
      && t.blk[s.end].size == extra && t.end == s.end + extra && t.free == s.free + [s.end]
  {
    GrowTiles(s.w, s.end, s.blk, extra);
    assert s.end !in s.free;
  }

  // Only a free block that used to be physically last can have become untidy.
  lemma GrowTidy(s: Heap, extra: nat, e: set<nat>)
    requires WF(s) && Tidy(s) && MinBlock(s.w) <= extra
    requires forall x :: FreeAt(s.blk, x) && EndOf(s.blk, x) == s.end ==> x in e
    ensures TidyBut(Grow(s, extra), e)
  {
    GrowTiles(s.w, s.end, s.blk, extra);
    var t := Grow(s, extra);
    forall x | FreeAt(t.blk, x) && x !in e
      ensures TidyAt(t, x)
    {
      if x != s.end {
        assert TidyAt(s, x);
      }
    }
  }

  // A live block goes to the head of the free list.
  function Release(s: Heap, a: nat): Heap
    requires LiveAt(s.blk, a)
  {
    s.(blk := s.blk[a := Block(s.blk[a].size, Free)], free := [a] + s.free)
  }

  // Only the kind of one block differs.
  lemma RetypeTiles(w: nat, end: nat, m: Blocks, a: nat, k: Kind)
    requires Tiles(w, end, m) && a in m
    ensures Tiles(w, end, m[a := Block(m[a].size, k)])
  {
    var t := m[a := Block(m[a].size, k)];
    forall x {:trigger Chained(end, t, x)} | x in t
      ensures Chained(end, t, x) && Fits(w, end, t, x)
    {
      assert Chained(end, m, x) && Fits(w, end, m, x);
    }
  }

  lemma ReleaseKeeps(s: Heap, a: nat)
    requires WF(s) && LiveAt(s.blk, a)
    ensures var t := Release(s, a);
      && WF(t) && FreeAt(t.blk, a) && SameLive(s.blk - {a}, t.blk)
      && t.blk[a].size == s.blk[a].size && t.free == [a] + s.free
  {
    hide Tiles;
    RetypeTiles(s.w, s.end, s.blk, a, Free);
    assert a !in s.free;
  }
}
