/** Vectors: element addresses in the slots of a head block and of a chain of
    continuation blocks, which together refine one flat sequence. */
module Vector {
  import opened Collection
  import opened HeapModel
  import opened Mirror
  import opened Sequences

  const INLINE: nat := 32          // slots of one block

  // What an address holds: an element, which may own further blocks, one of those,
  // or a continuation block of a vector.
  datatype Block = Elem(owns: seq<nat>) | Part | Cont(slots: seq<nat>, extra: nat)

  type Store = map<nat, Block>

  // ---- the flat view -------------------------------------------------------------

  // The k-th continuation block holds its stretch of slots.
  ghost predicate Stretch(m: Store, chain: seq<nat>, slots: seq<nat>, k: nat)
    requires k < |chain| && |slots| == INLINE * (|chain| + 1)
  {
    && chain[k] in m && m[chain[k]].Cont?
    && m[chain[k]].slots == slots[INLINE * (k + 1)..INLINE * (k + 2)]
    && m[chain[k]].extra == After(chain, k)
  }

  // Head and chain hold the slots, and each block leads to the next.
  ghost predicate Flat(m: Store, head: seq<nat>, extra: nat, chain: seq<nat>, slots: seq<nat>) {
    && Distinct(chain) && 0 !in chain && |slots| == INLINE * (|chain| + 1)
    && head == slots[..INLINE] && extra == First(chain)
    && forall k: nat {:trigger Stretch(m, chain, slots, k)} :: k < |chain| ==> Stretch(m, chain, slots, k)
  }

  // The elements and the blocks they own are allocated, each owned once.
  ghost predicate Owned(m: Store, elems: seq<nat>) {
    && Distinct(elems) && 0 !in elems
    && (forall e :: e in elems ==> e in m && m[e].Elem? && Distinct(m[e].owns))
    && (forall e, x :: e in elems && x in m[e].owns ==> x in m && m[x].Part?)
    && (forall e, f, x :: e in elems && f in elems && x in m[e].owns && x in m[f].owns ==> e == f)
  }

  // Everything that freeing the element e deeply releases.
  function Bundle(m: Store, e: nat): set<nat> {
    {e} + if e in m && m[e].Elem? then set x | x in m[e].owns else {}
  }

  lemma SlotPlace(slots: seq<nat>, n: nat, k: nat, i: nat, blocks: nat)
    requires |slots| == INLINE * (blocks + 1) && n == INLINE * k + i && i < INLINE && k <= blocks
    ensures n < |slots| && INLINE * (k + 1) <= |slots| && slots[INLINE * k..INLINE * (k + 1)][i] == slots[n]
  {
  }

  // The slot of a block changes: so does that slot of the flat view, and no other.
  lemma SlotChanged(m: Store, head: seq<nat>, extra: nat, chain: seq<nat>, slots: seq<nat>, n: nat, k: nat, i: nat,
                    a: nat)
    requires Flat(m, head, extra, chain, slots) && n == INLINE * k + i && i < INLINE && 0 < k <= |chain|
    ensures n < |slots| && Stretch(m, chain, slots, k - 1)
    ensures var b := m[chain[k - 1]];
      Flat(m[chain[k - 1] := b.(slots := b.slots[i := a])], head, extra, chain, slots[n := a])
  {
    assert Stretch(m, chain, slots, k - 1);
    var b, r := m[chain[k - 1]], slots[n := a];
    var t := m[chain[k - 1] := b.(slots := b.slots[i := a])];
    forall j: nat {:trigger Stretch(t, chain, r, j)} | j < |chain|
      ensures Stretch(t, chain, r, j)
    {
      assert Stretch(m, chain, slots, j);
      StretchChanged(slots, n, k, i, a, j + 1, |chain|);
    }
    assert r[..INLINE] == slots[..INLINE];
  }

  lemma StretchChanged(slots: seq<nat>, n: nat, k: nat, i: nat, a: nat, j: nat, blocks: nat)
    requires |slots| == INLINE * (blocks + 1) && n == INLINE * k + i && i < INLINE && k <= blocks && j <= blocks
    ensures var s := slots[INLINE * j..INLINE * (j + 1)];
      slots[n := a][INLINE * j..INLINE * (j + 1)] == if j == k then s[i := a] else s
  {
  }

  lemma HeadChanged(m: Store, head: seq<nat>, extra: nat, chain: seq<nat>, slots: seq<nat>, i: nat, a: nat)
    requires Flat(m, head, extra, chain, slots) && i < INLINE
    ensures Flat(m, head[i := a], extra, chain, slots[i := a])
  {
    var r := slots[i := a];
    forall j: nat {:trigger Stretch(m, chain, r, j)} | j < |chain|
      ensures Stretch(m, chain, r, j)
    {
      assert Stretch(m, chain, slots, j);
      StretchChanged(slots, i, 0, i, a, j + 1, |chain|);
    }
  }

  function Blank(): seq<nat> { seq(INLINE, _ => 0) }

  // m with the block c hung behind the last of the chain, if there is one.
  function Hung(m: Store, chain: seq<nat>, c: nat): Store {
    var t := m[c := Cont(Blank(), 0)];
    if chain == [] || Last(chain) !in t || !t[Last(chain)].Cont? then t
    else t[Last(chain) := t[Last(chain)].(extra := c)]
  }

  lemma ChainGrows(m: Store, head: seq<nat>, extra: nat, chain: seq<nat>, slots: seq<nat>, c: nat)
    requires Flat(m, head, extra, chain, slots) && c !in m && c != 0
    ensures c !in chain
    ensures Flat(Hung(m, chain, c), head, if chain == [] then c else extra, chain + [c], slots + Blank())
  {
    var t, q, r := Hung(m, chain, c), chain + [c], slots + Blank();
    forall k | 0 <= k < |chain|
      ensures chain[k] != c
    {
      assert Stretch(m, chain, slots, k);
    }
    forall j: nat {:trigger Stretch(t, q, r, j)} | j < |q|
      ensures Stretch(t, q, r, j)
    {
      if j < |chain| {
        assert Stretch(m, chain, slots, j);
        assert r[INLINE * (j + 1)..INLINE * (j + 2)] == slots[INLINE * (j + 1)..INLINE * (j + 2)];
      }
      if chain != [] {
        assert Stretch(m, chain, slots, |chain| - 1);
      }
    }
  }

  // ---- the vector ------------------------------------------------------------------

  class Vect {
    var store: Store           // the blocks of the heap the vector lives in
    var head: seq<nat>         // slots of the head block
    var extra: nat             // first continuation block
    var count: nat
    ghost var chain: seq<nat>  // the continuation blocks
    ghost var slots: seq<nat>  // all slots, flat

    // The vector as the sequence it stands for.
    ghost function Elems(): seq<nat>
      requires count <= |slots|
      reads this
    {
      slots[..count]
    }

    ghost predicate Shaped()
      reads this
    {
      Flat(store, head, extra, chain, slots)
    }

    ghost predicate Valid()
      reads this
    {
      Shaped() && count <= |slots| && Owned(store, Elems())
    }

    /** The slot at a logical index, or 0 past the last block. */
    method GetSlot(at: nat) returns (a: nat)
      requires Shaped()
      ensures a == if at < |slots| then slots[at] else 0
    {
      hide Stretch, Distinct, First;
      var n: nat, block, next := at, head, extra;
      ghost var k: nat := 0;
      FlatStart(store, head, extra, chain, slots);
      while n >= INLINE
        invariant k <= |chain| && at == INLINE * k + n
        invariant |block| == INLINE && block == slots[INLINE * k..INLINE * (k + 1)]
        invariant next == if k < |chain| then chain[k] else 0
        decreases n
      {
        if next == 0 {
          NextLeads(store, head, extra, chain, slots, k);
          return 0;
        }
        FlatStep(store, head, extra, chain, slots, k);
        var b := store[next];
        block, next := b.slots, b.extra;
        n := n - INLINE;
        k := k + 1;
      }
      SlotPlace(slots, at, k, n, |chain|);
      a := block[n];
    }

    // The block that holds a logical index, 0 for the head, hanging the block spare
    // behind the chain if the index lies past its end.
    method FindBlock(at: nat, spare: nat) returns (holder: nat, n: nat, ghost k: nat)
      requires Shaped() && (at < |slots| || (at < INLINE * (|chain| + 2) && spare !in store && spare != 0))
      modifies this`store, this`extra, this`chain, this`slots
      ensures Shaped() && k <= |chain| && at == INLINE * k + n && n < INLINE
      ensures holder == if k == 0 then 0 else chain[k - 1]
      ensures at < |old(slots)| ==>
        slots == old(slots) && store == old(store) && chain == old(chain) && extra == old(extra)
      ensures at >= |old(slots)| ==>
        slots == old(slots) + Blank() && chain == old(chain) + [spare] && store == Hung(old(store), old(chain), spare)
    {
      hide Flat, Stretch, Distinct, Hung;
      holder, n, k := 0, at, 0;
      var hung := false;
      while n >= INLINE
        invariant Shaped() && k <= |chain| && at == INLINE * k + n
        invariant holder == if k == 0 then 0 else chain[k - 1]
        invariant !hung ==> slots == old(slots) && store == old(store) && chain == old(chain) && extra == old(extra)
        invariant hung ==> at >= |old(slots)| && k == |chain| && chain == old(chain) + [spare]
        invariant hung ==> slots == old(slots) + Blank() && store == Hung(old(store), old(chain), spare)
        decreases n
      {
        FlatFacts(store, head, extra, chain, slots);
        var next := extra;
        if holder != 0 {
          FlatStep(store, head, extra, chain, slots, k - 1);
          next := store[holder].extra;
        }
        NextLeads(store, head, extra, chain, slots, k);
        if next == 0 {
          ChainGrows(store, head, extra, chain, slots, spare);
          FlatFacts(Hung(store, chain, spare), head, if chain == [] then spare else extra, chain + [spare],
            slots + Blank());
          HungIs(store, chain, spare, holder);
          next := spare;
          store := store[spare := Cont(Blank(), 0)];
          if holder != 0 {
            store := store[holder := store[holder].(extra := spare)];
          } else {
            extra := spare;
          }
          chain, slots := chain + [spare], slots + Blank();
          hung := true;
        }
        holder := next;
        n := n - INLINE;
        k := k + 1;
      }
      FlatFacts(store, head, extra, chain, slots);
    }

    /** Stores a slot at a logical index, with spare for a new continuation block if
        the index needs one. */
    method SetSlot(at: nat, elem: nat, spare: nat)
      requires Shaped() && (at < |slots| || (at < INLINE * (|chain| + 2) && spare !in store && spare != 0))
      modifies this`store, this`head, this`extra, this`chain, this`slots
      ensures Shaped() && at < |slots|
      ensures at < |old(slots)| ==> slots == old(slots)[at := elem] && chain == old(chain)
      ensures at >= |old(slots)| ==> slots == (old(slots) + Blank())[at := elem] && chain == old(chain) + [spare]
      ensures SameElems(old(store), store, at >= |old(slots)|, spare)
    {
      hide Flat, Stretch, Distinct, Hung, SameElems;
      FlatFacts(store, head, extra, chain, slots);
      var holder, n;
      ghost var k;
      holder, n, k := FindBlock(at, spare);
      FlatFacts(store, head, extra, chain, slots);
      SameSelf(old(store), store, old(chain), spare, at < |old(slots)|);
      if holder != 0 {
        FlatStep(store, head, extra, chain, slots, k - 1);
        SlotChanged(store, head, extra, chain, slots, at, k, n, elem);
        SameSlot(old(store), store, at >= |old(slots)|, spare, holder, n, elem);
        store := store[holder := store[holder].(slots := store[holder].slots[n := elem])];
      } else {
        if k > 0 {
          NonzeroBlock(store, head, extra, chain, slots, k);
        }
        HeadChanged(store, head, extra, chain, slots, n, elem);
        head := head[n := elem];
      }
      slots := slots[at := elem];
    }

    // Moves the slots from lo up to hi one to the right, the last one first.
    method ShiftRight(lo: nat, hi: nat, spare: nat)
      requires Shaped() && lo <= hi <= |slots| && spare !in store && spare != 0
      modifies this`store, this`head, this`extra, this`chain, this`slots
      ensures Shaped() && Shifted(old(slots), slots, lo, hi, lo)
      ensures |slots| == (if lo < hi == |old(slots)| then |old(slots)| + INLINE else |old(slots)|)
      ensures SameElems(old(store), store, |slots| != |old(slots)|, spare)
      ensures |slots| == |old(slots)| ==> spare !in store
      ensures |slots| == |old(slots)| ==> chain == old(chain)
      ensures |slots| != |old(slots)| ==> chain == old(chain) + [spare]
    {
      hide Flat, SameElems;
      ghost var was, m := slots, store;
      SameNone(store);
      var i := hi;
      while i > lo
        invariant Shaped() && lo <= i <= hi && Shifted(was, slots, lo, hi, i)
        invariant |slots| == (if i < hi == |was| then |was| + INLINE else |was|)
        invariant if |slots| == |was| then chain == old(chain) else chain == old(chain) + [spare]
        invariant SameElems(m, store, |slots| != |was|, spare)
        invariant |slots| == |was| ==> spare !in store
      {
        FlatFacts(store, head, extra, chain, slots);
        ghost var m1, before := store, slots;
        var a := GetSlot(i - 1);
        SetSlot(i, a, spare);
        FlatFacts(store, head, extra, chain, slots);
        SameChain(m, m1, store, |before| != |was|, i >= |before|, spare);
        i := i - 1;
      }
    }

    // The heap hands out a new element block with what it owns.
    method AllocElem(elem: nat, owns: seq<nat>)
      requires Shaped() && elem !in store && (forall x :: x in owns ==> x !in store)
      modifies this`store
      ensures Shaped() && store == WithElem(old(store), elem, owns)
    {
      hide Stretch, Distinct;
      WithElemShaped(store, head, extra, chain, slots, elem, owns);
      store := WithElem(store, elem, owns);
    }

    /** Inserts an element: sequence insertion, an index out of range meaning the end. */
    method InsertAt(at: int, elem: nat, owns: seq<nat>, spare: nat)
      requires Valid() && New(store, elem, owns, spare)
      modifies this
      ensures Valid()
      ensures var k := if at < 0 || at > old(count) then old(count) else at;
        Elems() == Inserted(old(Elems()), k, elem) && Opened(old(slots), slots, old(count), k, elem)
      ensures SameElems(WithElem(old(store), elem, owns), store, chain != old(chain), spare)
      ensures chain == old(chain) || chain == old(chain) + [spare]
    {
      hide Flat, SameElems, Owned, WithElem, Distinct, Opened;
      var k := if at < 0 || at > count then count else at;
      ghost var was, elems := slots, Elems();
      FlatFacts(store, head, extra, chain, slots);
      NewApart(store, elem, owns, spare);
      OwnedWith(store, elems, k, elem, owns);
      AllocElem(elem, owns);
      ghost var m := store;
      ShiftRight(k, count, spare);
      FlatFacts(store, head, extra, chain, slots);
      ghost var m1, n1, mid := store, |slots|, slots;
      SetSlot(k, elem, spare);
      FlatFacts(store, head, extra, chain, slots);
      SameChain(m, m1, store, n1 != |was|, k >= n1, spare);
      InsertedSlots(was, mid, slots, count, k, elem);
      count := count + 1;
      OwnedSame(m, store, Inserted(elems, k, elem), n1 != |was| || k >= n1, spare);
    }

    // ---- freeing -------------------------------------------------------------------

    // The heap takes a block back: one that is allocated.
    method Free(a: nat)
      requires a in store
      modifies this`store
      ensures store == old(store) - {a}
    {
      store := store - {a};
    }

    // Frees an element and, before it, the blocks it owns.
    method FreeElemDeep(elem: nat)
      requires elem != 0 ==> elem in store && store[elem].Elem? && Distinct(store[elem].owns)
      requires elem != 0 ==> forall x :: x in store[elem].owns ==> x in store && store[x].Part?
      modifies this`store
      ensures store == if elem == 0 then old(store) else old(store) - Bundle(old(store), elem)
    {
      if elem == 0 {
        return;
      }
      var owns := store[elem].owns;
      var i := 0;
      while i < |owns|
        invariant 0 <= i <= |owns| && store == old(store) - (set x | x in owns[..i])
      {
        assert owns[i] !in owns[..i] && owns[i] in owns;
        Free(owns[i]);
        assert owns[..i + 1] == owns[..i] + [owns[i]];
        i := i + 1;
      }
      assert owns[..i] == owns;
      assert elem !in owns;
      Free(elem);
      BundleIs(old(store), elem);
    }

    // Moves the slots behind n one to the left, up to the last one in use.
    method Compact(n: nat)
      requires Shaped() && n < count <= |slots|
      modifies this`store, this`head, this`extra, this`chain, this`slots
      ensures Shaped() && Compacted(old(slots), slots, n, count - 1) && chain == old(chain) && |slots| == |old(slots)|
      ensures SameElems(old(store), store, false, 0)
    {
      hide Flat, SameElems;
      ghost var was, m := slots, store;
      SameNone(store);
      var i := n;
      while i < count - 1
        invariant Shaped() && n <= i <= count - 1 && Compacted(was, slots, n, i) && chain == old(chain)
        invariant SameElems(m, store, false, 0)
        decreases count - i
      {
        ghost var m1 := store;
        var a := GetSlot(i + 1);
        SetSlot(i, a, 0);
        SameChain(m, m1, store, false, false, 0);
        i := i + 1;
      }
    }

    /** Deletes an element: sequence removal.  Nothing is allocated, and exactly the
        element and what it owns is freed. */
    method Delete(at: int) returns (ok: bool)
      requires Valid()
      modifies this`store, this`head, this`extra, this`chain, this`slots, this`count
      ensures Valid() && chain == old(chain) && (ok <==> 0 <= at < old(count))
      ensures !ok ==> Elems() == old(Elems()) && store == old(store)
      ensures ok ==> Elems() == Dropped(old(Elems()), at) && Closed(old(slots), slots, old(count), at)
      ensures ok ==> SameElems(old(store) - Bundle(old(store), old(Elems())[at]), store, false, 0)
    {
      hide Flat, SameElems, Owned, Distinct, Bundle, Compacted, Dropped, Closed;
      if at < 0 || at >= count {
        return false;
      }
      ghost var was, elems, m0 := slots, Elems(), store;
      var a := GetSlot(at);
      OwnedElem(store, elems, at);
      FreeShaped(store, head, extra, chain, slots, elems, at);
      OwnedDropped(store, elems, at);
      FreeElemDeep(a);
      ghost var m := store;
      Compact(at);
      ghost var m1, mid := store, slots;
      SetSlot(count - 1, 0, 0);
      SameChain(m, m1, store, false, false, 0);
      DroppedSlots(was, mid, slots, count, at);
      count := count - 1;
      OwnedSame(m, store, Dropped(elems, at), false, 0);
      ok := true;
    }

    // Frees every element.
    method FreeElems()
      requires Valid()
      modifies this`store
      ensures Shaped() && store == old(store) - Bundles(old(store), Elems(), count)
    {
      hide Flat, Owned, Distinct, Bundle;
      ghost var m, elems := store, Elems();
      var i := 0;
      while i < count
        invariant 0 <= i <= count && Shaped() && store == m - Bundles(m, elems, i)
      {
        var a := GetSlot(i);
        OwnedElem(m, elems, i);
        BundleApart(m, elems, i);
        BundleStays(m, elems, i);
        BundlesShaped(m, head, extra, chain, slots, elems, i);
        FreeElemDeep(a);
        BundlesNext(m, elems, i);
        i := i + 1;
      }
    }

    // Frees every continuation block.
    method FreeChain()
      requires Shaped()
      modifies this`store
      ensures store == old(store) - (set x | x in chain)
    {
      hide Flat, Stretch, Distinct;
      ghost var m, q, k := store, chain, 0;
      FlatFacts(store, head, extra, chain, slots);
      NextLeads(store, head, extra, chain, slots, 0);
      var spare := extra;
      while spare != 0
        invariant 0 <= k <= |q| && store == m - (set x | x in q[..k])
        invariant if k < |q| then spare == q[k] != 0 else spare == 0
        decreases |q| - k
      {
        FlatStep(m, head, extra, chain, slots, k);
        ChainUnfreed(m, head, extra, chain, slots, k);
        if k + 1 < |q| {
          NextLeads(m, head, extra, chain, slots, k + 1);
        }
        var next := store[spare].extra;
        Free(spare);
        assert q[..k + 1] == q[..k] + [q[k]];
        k := k + 1;
        spare := next;
      }
      assert q[..|q|] == q;
    }

    /** Empties the vector: every element with what it owns, and every continuation
        block, is freed once, and nothing else is. */
    method Truncate()
      requires Valid()
      modifies this
      ensures Valid() && Elems() == [] && chain == []
      ensures store == old(store) - Bundles(old(store), old(Elems()), old(count)) - (set x | x in old(chain))
    {
      hide Flat, Stretch, Distinct, Owned;
      FreeElems();
      FreeChain();
      FlatFacts(old(store), head, extra, chain, slots);
      extra, count := 0, 0;
      chain, slots := [], head;
      EmptyFlat(store, head);
      NoneOwned(store);
    }
  }

  // ---- lemmas for the walks along the chain --------------------------------------------

  lemma FlatFacts(m: Store, head: seq<nat>, extra: nat, chain: seq<nat>, slots: seq<nat>)
    requires Flat(m, head, extra, chain, slots)
    ensures |slots| == INLINE * (|chain| + 1) && |head| == INLINE && head == slots[..INLINE]
    ensures extra == First(chain) && 0 !in chain
  {
  }

  lemma FlatStart(m: Store, head: seq<nat>, extra: nat, chain: seq<nat>, slots: seq<nat>)
    requires Flat(m, head, extra, chain, slots)
    ensures |slots| >= INLINE && |head| == INLINE && head == slots[INLINE * 0..INLINE * 1]
    ensures extra == if chain == [] then 0 else chain[0]
    ensures |slots| == INLINE * (|chain| + 1)
  {
  }

  // The k-th block of the chain: its slots, and where it leads.
  lemma FlatStep(m: Store, head: seq<nat>, extra: nat, chain: seq<nat>, slots: seq<nat>, k: nat)
    requires Flat(m, head, extra, chain, slots) && k < |chain|
    ensures chain[k] in m && m[chain[k]].Cont? && chain[k] != 0 && |slots| == INLINE * (|chain| + 1)
    ensures m[chain[k]].slots == slots[INLINE * (k + 1)..INLINE * (k + 2)] && |m[chain[k]].slots| == INLINE
    ensures m[chain[k]].extra == if k + 1 < |chain| then chain[k + 1] else 0
  {
    assert Stretch(m, chain, slots, k) && chain[k] in chain;
  }

  // Past the k-th block there is a next one unless it is the last.
  lemma NextLeads(m: Store, head: seq<nat>, extra: nat, chain: seq<nat>, slots: seq<nat>, k: nat)
    requires Flat(m, head, extra, chain, slots) && k <= |chain|
    ensures First(chain) == (if chain == [] then 0 else chain[0]) && (k < |chain| ==> chain[k] != 0)
    ensures |slots| == INLINE * (|chain| + 1)
  {
    assert k < |chain| ==> chain[k] in chain;
  }

  lemma HungIs(m: Store, chain: seq<nat>, c: nat, holder: nat)
    requires c !in m && holder == (if chain == [] then 0 else chain[|chain| - 1])
    requires chain != [] ==> holder in m && m[holder].Cont?
    ensures var t := m[c := Cont(Blank(), 0)];
      Hung(m, chain, c) == if chain == [] then t else t[holder := t[holder].(extra := c)]
  {
  }

  // The same elements and parts, and perhaps one continuation block c more.
  ghost predicate SameElems(m: Store, t: Store, grown: bool, c: nat) {
    && (forall x :: x in t <==> x in m || (grown && x == c))
    && (forall x :: x in m && !m[x].Cont? ==> t[x] == m[x])
    && (forall x :: x in t && ((grown && x == c) || (x in m && m[x].Cont?)) ==> t[x].Cont?)
  }

  lemma SameSelf(m: Store, t: Store, chain: seq<nat>, c: nat, inside: bool)
    requires (inside || c !in m) && t == (if inside then m else Hung(m, chain, c))
    ensures SameElems(m, t, !inside, c)
  {
  }

  lemma SameSlot(m: Store, t: Store, grown: bool, c: nat, a: nat, n: nat, v: nat)
    requires SameElems(m, t, grown, c) && a in t && t[a].Cont? && n < |t[a].slots|
    ensures SameElems(m, t[a := t[a].(slots := t[a].slots[n := v])], grown, c)
  {
  }

  lemma NonzeroBlock(m: Store, head: seq<nat>, extra: nat, chain: seq<nat>, slots: seq<nat>, k: nat)
    requires Flat(m, head, extra, chain, slots) && 0 < k <= |chain|
    ensures chain[k - 1] != 0
  {
    assert chain[k - 1] in chain;
  }

  lemma SameNone(m: Store)
    ensures forall c :: SameElems(m, m, false, c)
  {
  }

  lemma SameChain(m: Store, t: Store, u: Store, first: bool, second: bool, c: nat)
    requires SameElems(m, t, first, c) && SameElems(t, u, second, c) && !(first && second)
    requires second ==> c !in t
    ensures SameElems(m, u, first || second, c) && (!first && !second && c !in t ==> c !in u)
  {
  }

  // ---- shifting ------------------------------------------------------------------------

  // The slots from i to hi have moved one up; those below i are as they were.
  ghost predicate Shifted(was: seq<nat>, now: seq<nat>, lo: nat, hi: nat, i: nat) {
    && lo <= i <= hi <= |was| <= |now| && (i < hi ==> hi < |now|)
    && (forall j :: 0 <= j < i ==> now[j] == was[j])
    && (forall j :: i < j <= hi ==> now[j] == was[j - 1])
    && (forall j :: hi < j < |now| ==> now[j] == if j < |was| then was[j] else 0)
    && (i == hi ==> now == was)
  }

  // The slots once a is put in at k among n elements: those behind have moved one up,
  // what lies past the elements is as it was, and a new block is blank.
  ghost predicate Opened(was: seq<nat>, now: seq<nat>, n: nat, k: nat, a: nat) {
    && k <= n <= |was| <= |now| && n < |now|
    && forall j :: 0 <= j < |now| ==>
         now[j] == if j < k then was[j] else if j == k then a else if j <= n then was[j - 1]
                   else if j < |was| then was[j] else 0
  }

  lemma InsertedSlots(was: seq<nat>, mid: seq<nat>, now: seq<nat>, n: nat, k: nat, a: nat)
    requires n <= |was| && k <= n && Shifted(was, mid, k, n, k)
    requires n < |now| && (now == (if k < |mid| then mid else mid + Blank())[k := a])
    ensures now[..n + 1] == Inserted(was[..n], k, a) && Opened(was, now, n, k, a)
  {
  }

  // ---- new elements --------------------------------------------------------------------

  // What the heap answers: blocks not in use, all different.
  ghost predicate New(m: Store, elem: nat, owns: seq<nat>, spare: nat) {
    && elem !in m && elem != 0 && spare !in m && spare != 0 && spare != elem
    && Distinct(owns) && elem !in owns && spare !in owns && (forall x :: x in owns ==> x !in m)
  }

  function WithElem(m: Store, elem: nat, owns: seq<nat>): Store {
    (m + map x | x in owns :: Part)[elem := Elem(owns)]
  }

  lemma NewApart(m: Store, elem: nat, owns: seq<nat>, spare: nat)
    requires New(m, elem, owns, spare)
    ensures spare !in WithElem(m, elem, owns)
  {
  }

  lemma WithElemShaped(m: Store, head: seq<nat>, extra: nat, chain: seq<nat>, slots: seq<nat>, elem: nat,
                       owns: seq<nat>)
    requires Flat(m, head, extra, chain, slots) && elem !in m && (forall x :: x in owns ==> x !in m)
    ensures Flat(WithElem(m, elem, owns), head, extra, chain, slots)
  {
    var t := WithElem(m, elem, owns);
    forall j: nat {:trigger Stretch(t, chain, slots, j)} | j < |chain|
      ensures Stretch(t, chain, slots, j)
    {
      assert Stretch(m, chain, slots, j);
    }
  }

  lemma WithElemAt(m: Store, elem: nat, owns: seq<nat>)
    requires elem !in m && elem !in owns && (forall x :: x in owns ==> x !in m)
    ensures var t := WithElem(m, elem, owns);
      && (forall x :: x in m ==> x in t && t[x] == m[x])
      && elem in t && t[elem] == Elem(owns) && (forall x :: x in owns ==> x in t && t[x] == Part)
  {
  }

  lemma OwnedWith(m: Store, q: seq<nat>, k: nat, elem: nat, owns: seq<nat>)
    requires Owned(m, q) && k <= |q| && elem !in m && elem != 0 && Distinct(owns) && elem !in owns
    requires forall x :: x in owns ==> x !in m
    ensures Owned(WithElem(m, elem, owns), Inserted(q, k, elem))
  {
    hide WithElem, Inserted, Distinct;
    InsertedMembers(q, k, elem);
    WithElemAt(m, elem, owns);
  }

  lemma InsertedMembers(q: seq<nat>, k: nat, a: nat)
    requires k <= |q| && Distinct(q) && a !in q
    ensures var r := Inserted(q, k, a); Distinct(r) && forall x :: x in r <==> x == a || x in q
  {
    var r := Inserted(q, k, a);
    forall x
      ensures x in r <==> x == a || x in q
    {
      if x in q {
        var i :| 0 <= i < |q| && q[i] == x;
        assert r[if i < k then i else i + 1] == x;
      }
      assert r[k] == a;
    }
  }

  lemma OwnedSame(m: Store, t: Store, q: seq<nat>, grown: bool, c: nat)
    requires Owned(m, q) && SameElems(m, t, grown, c)
    ensures Owned(t, q)
  {
  }

  // ---- freeing ---------------------------------------------------------------------------

  lemma BundleIs(m: Store, e: nat)
    requires e in m && m[e].Elem?
    ensures Bundle(m, e) == (set x | x in m[e].owns) + {e}
    ensures m - (set x | x in m[e].owns) - {e} == m - Bundle(m, e)
  {
  }

  lemma OwnedElem(m: Store, q: seq<nat>, i: nat)
    requires Owned(m, q) && i < |q|
    ensures q[i] != 0 && q[i] in m && m[q[i]].Elem? && Distinct(m[q[i]].owns)
    ensures forall x :: x in m[q[i]].owns ==> x in m && m[x].Part?
  {
    assert q[i] in q;
  }

  // Blocks that are no continuation blocks can go without touching the slots.
  lemma ShapedWithout(m: Store, gone: set<nat>, head: seq<nat>, extra: nat, chain: seq<nat>, slots: seq<nat>)
    requires Flat(m, head, extra, chain, slots) && (forall x :: x in gone && x in m ==> !m[x].Cont?)
    ensures Flat(m - gone, head, extra, chain, slots)
  {
    forall j: nat {:trigger Stretch(m - gone, chain, slots, j)} | j < |chain|
      ensures Stretch(m - gone, chain, slots, j)
    {
      assert Stretch(m, chain, slots, j);
    }
  }

  lemma FreeShaped(m: Store, head: seq<nat>, extra: nat, chain: seq<nat>, slots: seq<nat>, q: seq<nat>, i: nat)
    requires Flat(m, head, extra, chain, slots) && Owned(m, q) && i < |q|
    ensures Flat(m - Bundle(m, q[i]), head, extra, chain, slots)
  {
    hide Flat;
    OwnedElem(m, q, i);
    ShapedWithout(m, Bundle(m, q[i]), head, extra, chain, slots);
  }

  lemma OwnedDropped(m: Store, q: seq<nat>, i: nat)
    requires Owned(m, q) && i < |q|
    ensures Owned(m - Bundle(m, q[i]), Dropped(q, i))
  {
    hide Dropped, Distinct;
    DroppedOnce(q, i);
    assert q[i] in q;
  }

  // The slots behind n have moved one down, as far as i.
  ghost predicate Compacted(was: seq<nat>, now: seq<nat>, n: nat, i: nat) {
    && n <= i && |now| == |was|
    && (forall j :: 0 <= j < n && j < |was| ==> now[j] == was[j])
    && (forall j :: n <= j < i && j + 1 < |was| ==> now[j] == was[j + 1])
    && (forall j :: i <= j < |was| ==> now[j] == was[j])
  }

  // The slots once the k-th of n elements is gone: those behind have moved one down, the
  // last one is 0, and what lies past the elements is as it was.
  ghost predicate Closed(was: seq<nat>, now: seq<nat>, n: nat, k: nat) {
    && k < n <= |was| == |now|
    && forall j :: 0 <= j < |now| ==>
         now[j] == if j < k then was[j] else if j < n - 1 then was[j + 1] else if j == n - 1 then 0 else was[j]
  }

  lemma DroppedSlots(was: seq<nat>, mid: seq<nat>, now: seq<nat>, n: nat, k: nat)
    requires k < n <= |was| && Compacted(was, mid, k, n - 1) && now == mid[n - 1 := 0]
    ensures now[..n - 1] == Dropped(was[..n], k) && Closed(was, now, n, k)
  {
  }

  // All that the first i elements own.
  ghost function Bundles(m: Store, q: seq<nat>, i: nat): set<nat>
    requires i <= |q|
  {
    if i == 0 then {} else Bundles(m, q, i - 1) + Bundle(m, q[i - 1])
  }

  lemma {:induction false} BundlesHold(m: Store, q: seq<nat>, i: nat, x: nat) returns (j: nat)
    requires i <= |q| && x in Bundles(m, q, i)
    ensures j < i && x in Bundle(m, q[j])
  {
    if x in Bundle(m, q[i - 1]) {
      j := i - 1;
    } else {
      j := BundlesHold(m, q, i - 1, x);
    }
  }

  /** What an element owns is freed with it and with no other. */
  lemma BundleApart(m: Store, q: seq<nat>, i: nat)
    requires Owned(m, q) && i < |q|
    ensures Bundle(m, q[i]) !! Bundles(m, q, i)
  {
    forall x | x in Bundle(m, q[i]) && x in Bundles(m, q, i)
      ensures false
    {
      var j := BundlesHold(m, q, i, x);
      TwoBundles(m, q, i, j, x);
    }
  }

  lemma TwoBundles(m: Store, q: seq<nat>, i: nat, j: nat, x: nat)
    requires Owned(m, q) && i < |q| && j < |q| && x in Bundle(m, q[i]) && x in Bundle(m, q[j])
    ensures i == j
  {
    OwnedElem(m, q, i);
    OwnedElem(m, q, j);
    assert q[i] in q && q[j] in q;
  }

  lemma BundleStays(m: Store, q: seq<nat>, i: nat)
    requires Owned(m, q) && i < |q| && Bundle(m, q[i]) !! Bundles(m, q, i)
    ensures var t := m - Bundles(m, q, i); var e := q[i];
      && e in t && t[e] == m[e] && (forall x :: x in m[e].owns ==> x in t && t[x] == m[x])
      && Bundle(t, e) == Bundle(m, e)
  {
    hide Bundles;
    OwnedElem(m, q, i);
  }

  lemma BundlesNext(m: Store, q: seq<nat>, i: nat)
    requires i < |q|
    ensures m - Bundles(m, q, i) - Bundle(m, q[i]) == m - Bundles(m, q, i + 1)
  {
    assert Bundles(m, q, i + 1) == Bundles(m, q, i) + Bundle(m, q[i]);
  }

  lemma BundlesShaped(m: Store, head: seq<nat>, extra: nat, chain: seq<nat>, slots: seq<nat>, q: seq<nat>, i: nat)
    requires Owned(m, q) && i < |q| && Flat(m - Bundles(m, q, i), head, extra, chain, slots)
    ensures Flat(m - Bundles(m, q, i + 1), head, extra, chain, slots)
  {
    hide Flat;
    OwnedElem(m, q, i);
    BundlesNext(m, q, i);
    ShapedWithout(m - Bundles(m, q, i), Bundle(m, q[i]), head, extra, chain, slots);
  }

  lemma ChainUnfreed(m: Store, head: seq<nat>, extra: nat, chain: seq<nat>, slots: seq<nat>, k: nat)
    requires Flat(m, head, extra, chain, slots) && k < |chain|
    ensures chain[k] !in (set x | x in chain[..k])
  {
  }

  lemma EmptyFlat(m: Store, head: seq<nat>)
    requires |head| == INLINE
    ensures Flat(m, head, 0, [], head)
  {
  }

  lemma NoneOwned(m: Store)
    ensures Owned(m, [])
  {
  }

  /** A block holds 32 slots: slot n of the vector is slot n % 32 of the head block, or of
      the continuation block n / 32 further on. */
  lemma SlotHome(m: Store, head: seq<nat>, extra: nat, chain: seq<nat>, slots: seq<nat>, n: nat)
    requires Flat(m, head, extra, chain, slots) && n < |slots|
    ensures |head| == 32 && n / 32 <= |chain|
    ensures n < 32 ==> slots[n] == head[n]
    ensures 32 <= n ==> var c := chain[n / 32 - 1];
      c in m && m[c].Cont? && |m[c].slots| == 32 && slots[n] == m[c].slots[n % 32]
  {
    if 32 <= n {
      assert Stretch(m, chain, slots, n / 32 - 1);
    }
  }
}
