/** Freeing an element with all it owns: a nested list or vector frees its elements,
    each with all it owns, then its continuation blocks, and then goes itself. */
module DeepFree {
  import opened HeapModel
  import opened Mirror

  // What an address holds: data, a nested list or vector with its slots and first
  // continuation block, or a continuation block that leads to the next.
  datatype Cell = Data | Nest(slots: seq<nat>, extra: nat) | More(extra: nat)

  type Cells = map<nat, Cell>

  /** An element with all it owns, or the gap an empty slot is. */
  datatype Owner = Gap | Plain(at: nat) | Nested(at: nat, items: seq<Owner>, chain: seq<nat>)

  function Slot(t: Owner): nat { if t.Gap? then 0 else t.at }

  // The blocks of an element, in the order they are freed.
  function Parts(t: Owner): seq<nat> {
    match t
    case Gap => []
    case Plain(at) => [at]
    case Nested(at, items, chain) => ItemParts(t, |items|) + chain + [at]
  }

  // Those of the first k elements of a nested list or vector.
  function ItemParts(t: Owner, k: nat): seq<nat>
    requires t.Nested? && k <= |t.items|
    decreases t, 0, k
  {
    if k == 0 then [] else ItemParts(t, k - 1) + Parts(t.items[k - 1])
  }

  // The cells hold the continuation blocks q, each leading to the next.
  ghost predicate ChainIn(m: Cells, q: seq<nat>) {
    forall k :: 0 <= k < |q| ==> q[k] in m && m[q[k]] == More(After(q, k))
  }

  // The cells hold the element t.
  ghost predicate Holds(m: Cells, t: Owner) {
    && (Slot(t) == 0 <==> t.Gap?)
    && match t
       case Gap => true
       case Plain(at) => at in m && m[at].Data?
       case Nested(at, items, chain) =>
         && at in m && m[at].Nest?
         && |m[at].slots| == |items| && m[at].extra == First(chain) && 0 !in chain && ChainIn(m, chain)
         && (forall k :: 0 <= k < |items| ==> m[at].slots[k] == Slot(items[k]) && Holds(m, items[k]))
  }

  // The cells of t are the same in both.
  ghost predicate SameCells(m: Cells, n: Cells, q: seq<nat>) { forall x :: x in q && x in m ==> x in n && n[x] == m[x] }

  lemma {:induction false} ItemsIn(t: Owner, k: nat, j: nat, x: nat)
    requires t.Nested? && j < k <= |t.items| && x in Parts(t.items[j])
    ensures x in ItemParts(t, k)
  {
    if j < k - 1 {
      ItemsIn(t, k - 1, j, x);
    }
  }

  lemma {:induction false} HoldsSame(m: Cells, n: Cells, t: Owner)
    requires Holds(m, t) && SameCells(m, n, Parts(t))
    ensures Holds(n, t)
    decreases t
  {
    if t.Nested? {
      assert t.at in Parts(t);
      forall k | 0 <= k < |t.chain|
        ensures t.chain[k] in n && n[t.chain[k]] == m[t.chain[k]]
      {
        assert t.chain[k] in Parts(t);
      }
      forall k | 0 <= k < |t.items|
        ensures Holds(n, t.items[k])
      {
        forall x | x in Parts(t.items[k])
          ensures x in Parts(t)
        {
          ItemsIn(t, |t.items|, k, x);
        }
        HoldsSame(m, n, t.items[k]);
      }
    }
  }

  // All of them are allocated.
  lemma {:induction false} HoldsAll(m: Cells, t: Owner, x: nat)
    requires Holds(m, t) && x in Parts(t)
    ensures x in m
    decreases t, |Parts(t)|
  {
    if t.Nested? && x in ItemParts(t, |t.items|) {
      HoldsItems(m, t, |t.items|, x);
    }
  }

  lemma {:induction false} HoldsItems(m: Cells, t: Owner, k: nat, x: nat)
    requires Holds(m, t) && t.Nested? && k <= |t.items| && x in ItemParts(t, k)
    ensures x in m
    decreases t, 0, k
  {
    if x in ItemParts(t, k - 1) {
      HoldsItems(m, t, k - 1, x);
    } else {
      HoldsAll(m, t.items[k - 1], x);
    }
  }

  lemma HoldsEach(m: Cells, t: Owner)
    requires Holds(m, t)
    ensures forall x :: x in Parts(t) ==> x in m
  {
    forall x | x in Parts(t)
      ensures x in m
    {
      HoldsAll(m, t, x);
    }
  }

  function Members(q: seq<nat>): set<nat> { set x | x in q }

  lemma SplitDistinct(p: seq<nat>, q: seq<nat>)
    requires Distinct(p + q)
    ensures Distinct(p) && Distinct(q) && Members(p) !! Members(q)
  {
    forall i, j | 0 <= i < j < |p|
      ensures p[i] != p[j]
    {
      assert p[i] == (p + q)[i] && p[j] == (p + q)[j];
    }
    forall i, j | 0 <= i < j < |q|
      ensures q[i] != q[j]
    {
      assert q[i] == (p + q)[|p| + i] && q[j] == (p + q)[|p| + j];
    }
    forall i, j | 0 <= i < |p| && 0 <= j < |q|
      ensures p[i] != q[j]
    {
      assert p[i] == (p + q)[i] && q[j] == (p + q)[|p| + j];
    }
  }

  lemma {:induction false} ItemsDistinct(t: Owner, k: nat, n: nat)
    requires t.Nested? && k <= n <= |t.items| && Distinct(ItemParts(t, n))
    ensures Distinct(ItemParts(t, k))
    decreases n
  {
    if k < n {
      SplitDistinct(ItemParts(t, n - 1), Parts(t.items[n - 1]));
      ItemsDistinct(t, k, n - 1);
    }
  }

  lemma ChainStart(m: Cells, q: seq<nat>)
    ensures Members(q[..0]) == {} && m - Members(q[..0]) == m && q[..0] == []
  {
  }

  lemma MembersNext(q: seq<nat>, k: nat)
    requires Distinct(q) && k < |q|
    ensures q[..k + 1] == q[..k] + [q[k]] && q[k] !in Members(q[..k])
    ensures Members(q[..k + 1]) == Members(q[..k]) + {q[k]}
  {
  }

  lemma ChainStep(m: Cells, q: seq<nat>, k: nat)
    requires Distinct(q) && ChainIn(m, q) && k < |q|
    ensures q[k] in m - Members(q[..k]) && (m - Members(q[..k]))[q[k]] == More(After(q, k))
    ensures q[..k + 1] == q[..k] + [q[k]] && m - Members(q[..k]) - {q[k]} == m - Members(q[..k + 1])
  {
    hide Members, Distinct;
    MembersNext(q, k);
  }

  lemma ChainEnd(q: seq<nat>, k: nat)
    requires 0 !in q && k <= |q| && (k < |q| ==> q[k] == 0)
    ensures q[..k] == q
  {
    forall j | 0 <= j < |q|
      ensures q[j] != 0
    {
      assert q[j] in q;
    }
  }

  lemma TwoGone(m: Cells, p: seq<nat>, q: seq<nat>)
    ensures m - Members(p) - Members(q) == m - Members(p + q)
  {
    assert Members(p + q) == Members(p) + Members(q);
  }

  lemma NoneGone(m: Cells)
    ensures m - Members([]) == m
  {
    assert Members([]) == {};
  }

  // An element goes after what it owns.
  lemma GoesLast(m: Cells, t: Owner)
    requires !t.Gap?
    ensures var q := if t.Nested? then ItemParts(t, |t.items|) + t.chain else [];
      && Parts(t) == q + [t.at] && m - Members(Parts(t)) == m - Members(q) - {t.at}
      && (q == [] ==> m - Members(q) == m) && (t.at in Members(q) ==> t.at in q)
  {
    var q := if t.Nested? then ItemParts(t, |t.items|) + t.chain else [];
    assert Members([t.at]) == {t.at};
    TwoGone(m, q, [t.at]);
  }

  // What is left of the cells, and the order they went in.
  class Ledger {
    var cells: Cells
    var freed: seq<nat>

    constructor (m: Cells)
      ensures cells == m && freed == []
    {
      cells, freed := m, [];
    }

    // A block can be freed once.
    method Free(x: nat)
      requires x in cells
      modifies this
      ensures cells == old(cells) - {x} && freed == old(freed) + [x]
    {
      cells := cells - {x};
      freed := freed + [x];
    }

    // Frees the continuation blocks from a on, which are q.
    method FreeChain(a: nat, ghost q: seq<nat>)
      requires a == First(q) && 0 !in q && Distinct(q) && ChainIn(cells, q)
      modifies this
      ensures cells == old(cells) - Members(q) && freed == old(freed) + q
    {
      hide Distinct, Members, ChainIn;
      ghost var m := cells;
      ChainStart(m, q);
      var b := a;
      ghost var k := 0;
      while b != 0
        invariant k <= |q| && b == if k < |q| then q[k] else 0
        invariant cells == m - Members(q[..k]) && freed == old(freed) + q[..k]
        decreases |q| - k
      {
        ChainStep(m, q, k);
        var next := cells[b].extra;
        Free(b);
        b, k := next, k + 1;
      }
      ChainEnd(q, k);
    }

    /** Frees the element at a, which is t: every block of it goes exactly once, what an
        element owns before the element, and no other block goes. */
    method FreeElemDeep(a: nat, ghost t: Owner)
      requires a == Slot(t) && Holds(cells, t) && Distinct(Parts(t))
      modifies this
      ensures cells == old(cells) - Members(Parts(t)) && freed == old(freed) + Parts(t)
      ensures forall x :: x in Parts(t) ==> x in old(cells)
      decreases t, 1, 0
    {
      hide Members, ItemParts, ChainIn, Distinct;
      HoldsEach(cells, t);
      if a == 0 {
        NoneGone(cells);
        return;
      }
      GoesLast(cells, t);
      if cells[a].Nest? {
        Truncate(a, t);
      }
      Free(a);
    }

    // Empties the nested list or vector at a: its elements, then its continuation blocks.
    method Truncate(a: nat, ghost t: Owner)
      requires t.Nested? && a == t.at && Holds(cells, t) && Distinct(Parts(t))
      modifies this
      ensures var q := ItemParts(t, |t.items|) + t.chain;
        a !in q && cells == old(cells) - Members(q) && freed == old(freed) + q
      decreases t, 0, 1
    {
      hide ItemParts, Holds, Members, Distinct, ChainIn;
      ghost var m, all := cells, ItemParts(t, |t.items|);
      TruncateParts(m, t);
      var extra := cells[a].extra;
      FreeItems(cells[a].slots, t);
      ChainHolds(m, all, t.chain);
      FreeChain(extra, t.chain);
      TwoGone(m, all, t.chain);
    }

    // Frees the elements in the slots one after the other.
    method FreeItems(slots: seq<nat>, ghost t: Owner)
      requires t.Nested? && Holds(cells, t) && slots == cells[t.at].slots && Distinct(ItemParts(t, |t.items|))
      modifies this
      ensures cells == old(cells) - Members(ItemParts(t, |t.items|)) && freed == old(freed) + ItemParts(t, |t.items|)
      decreases t, 0, 0
    {
      hide Holds, Distinct, Members, ItemParts;
      ghost var m := cells;
      SlotsAre(m, t);
      ItemsBegin(m, t);
      var i := 0;
      while i < |slots|
        invariant i <= |slots| == |t.items| && cells == m - Members(ItemParts(t, i))
        invariant freed == old(freed) + ItemParts(t, i)
      {
        TurnHolds(m, t, i);
        ItemsTurn(m, t, i);
        FreeElemDeep(slots[i], t.items[i]);
        i := i + 1;
      }
    }
  }

  lemma TruncateParts(m: Cells, t: Owner)
    requires t.Nested? && Holds(m, t) && Distinct(Parts(t))
    ensures var all := ItemParts(t, |t.items|);
      && t.at in m && m[t.at].Nest? && m[t.at].extra == First(t.chain) && 0 !in t.chain && ChainIn(m, t.chain)
      && Distinct(all) && Distinct(t.chain) && Members(all) !! Members(t.chain) && t.at !in all + t.chain
  {
    hide ItemParts;
    var all := ItemParts(t, |t.items|);
    SplitDistinct(all + t.chain, [t.at]);
    SplitDistinct(all, t.chain);
    assert t.at in Members([t.at]);
  }

  lemma SlotsAre(m: Cells, t: Owner)
    requires t.Nested? && Holds(m, t)
    ensures t.at in m && m[t.at].Nest? && |m[t.at].slots| == |t.items|
    ensures forall k :: 0 <= k < |t.items| ==> m[t.at].slots[k] == Slot(t.items[k])
  {
  }

  lemma ItemsBegin(m: Cells, t: Owner)
    requires t.Nested?
    ensures ItemParts(t, 0) == [] && m - Members(ItemParts(t, 0)) == m
  {
    NoneGone(m);
  }

  lemma ItemsTurn(m: Cells, t: Owner, i: nat)
    requires t.Nested? && i < |t.items|
    ensures ItemParts(t, i + 1) == ItemParts(t, i) + Parts(t.items[i])
    ensures m - Members(ItemParts(t, i)) - Members(Parts(t.items[i])) == m - Members(ItemParts(t, i + 1))
  {
    TwoGone(m, ItemParts(t, i), Parts(t.items[i]));
  }

  // The chain is still whole when the elements are gone.
  lemma ChainHolds(m: Cells, all: seq<nat>, chain: seq<nat>)
    requires Members(all) !! Members(chain)
    requires ChainIn(m, chain)
    ensures ChainIn(m - Members(all), chain)
  {
    forall k | 0 <= k < |chain|
      ensures chain[k] !in Members(all)
    {
      assert chain[k] in Members(chain);
    }
  }

  // The next element is still whole when those before it are gone.
  lemma TurnHolds(m: Cells, t: Owner, i: nat)
    requires t.Nested? && i < |t.items| && Holds(m, t) && Distinct(ItemParts(t, |t.items|))
    ensures Holds(m - Members(ItemParts(t, i)), t.items[i]) && Distinct(Parts(t.items[i]))
  {
    ItemsDistinct(t, i + 1, |t.items|);
    SplitDistinct(ItemParts(t, i), Parts(t.items[i]));
    HoldsSame(m, m - Members(ItemParts(t, i)), t.items[i]);
  }

  /** An element goes last, its continuation blocks right before it, and its elements, each
      with all it owns, before those. */
  lemma FreedLast(t: Owner)
    requires !t.Gap?
    ensures Parts(t) != [] && Parts(t)[|Parts(t)| - 1] == t.at
    ensures t.Nested? ==> var n := |Parts(t)| - 1 - |t.chain|;
      0 <= n && Parts(t)[n..|Parts(t)| - 1] == t.chain && Parts(t)[..n] == ItemParts(t, |t.items|)
  {
  }

  /** The elements go in the order of their slots. */
  lemma {:induction false} FreedInOrder(t: Owner, k: nat, j: nat)
    requires t.Nested? && j < k <= |t.items|
    ensures var n, p := |ItemParts(t, j)|, Parts(t.items[j]);
      n + |p| <= |ItemParts(t, k)| && ItemParts(t, k)[n..n + |p|] == p
    decreases k
  {
    if j < k - 1 {
      FreedInOrder(t, k - 1, j);
    }
  }
}
