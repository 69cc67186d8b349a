/** The stack of an item: snapshots of it, newest first, each a block of its own
    whose link leads to the one below. */
module Stacks {
  import opened HeapModel
  import opened Mirror

  // The parts of an item: name, data, the collections it may lack, and the elements
  // of a list or vect.
  datatype Content = Content(name: string, data: nat, attr: seq<nat>, desc: seq<nat>, elems: seq<nat>)

  // A new block holds the name's room and nothing else.
  const EMPTY := Content("", 0, [], [], [])

  datatype Gen = Gen(content: Content, stack: nat, parent: nat)

  type Store = map<nat, Gen>

  // ---- the stack as a value --------------------------------------------------------

  // The live content, and the snapshots below it, newest first.
  datatype View = View(live: Content, below: seq<Content>)

  datatype Op = Push | Pop | Edit(to: Content)

  function Apply(v: View, op: Op): View {
    match op
    case Push => View(v.live, [v.live] + v.below)
    case Pop => if v.below == [] then v else View(v.below[0], v.below[1..])
    case Edit(to) => v.(live := to)
  }

  function Run(v: View, ops: seq<Op>): View
    decreases |ops|
  {
    if ops == [] then v else Run(Apply(v, ops[0]), ops[1..])
  }

  // How many pushes are not popped yet.
  function Depth(ops: seq<Op>): int
    decreases |ops|
  {
    if ops == [] then 0
    else Rise(ops[0]) + Depth(ops[1..])
  }

  // No pop reaches below where the operations started, d pushes up.
  predicate Stays(ops: seq<Op>, d: nat)
    decreases |ops|
  {
    ops == [] ||
    match ops[0]
    case Push => Stays(ops[1..], d + 1)
    case Pop => d > 0 && Stays(ops[1..], d - 1)
    case Edit(_) => Stays(ops[1..], d)
  }

  function Rise(op: Op): int { match op case Push => 1 case Pop => -1 case Edit(_) => 0 }

  // From level e of w down, the stack is that of v from level d down.
  ghost predicate Rests(v: View, d: int, w: View, e: int) {
    0 <= d <= |v.below| && 0 <= e <= |w.below| && w.below[e..] == v.below[d..] && |w.below| - e == |v.below| - d
  }

  lemma ApplyRests(v: View, op: Op, d: nat)
    requires d <= |v.below| && Stays([op], d)
    ensures Rests(v, d, Apply(v, op), d + Rise(op))
  {
    assert [op][1..] == [];
  }

  lemma RestsChain(v: View, d: int, w: View, e: int, x: View, f: int)
    requires Rests(v, d, w, e) && Rests(w, e, x, f)
    ensures Rests(v, d, x, f)
  {
  }

  // Operations that stay above level d leave what is below it alone.
  lemma {:induction false} RunStays(v: View, ops: seq<Op>, d: nat)
    requires Stays(ops, d) && d <= |v.below|
    ensures Rests(v, d, Run(v, ops), d + Depth(ops))
    decreases |ops|
  {
    hide Apply, Rests;
    if ops == [] {
      RestsSelf(v, d);
    } else {
      var w, e := Apply(v, ops[0]), d + Rise(ops[0]);
      assert Stays([ops[0]], d) by { FirstStays(ops, d); }
      ApplyRests(v, ops[0], d);
      RestsLevel(v, d, w, e);
      RunStays(w, ops[1..], e);
      RestsChain(v, d, w, e, Run(w, ops[1..]), d + Depth(ops));
    }
  }

  lemma RestsSelf(v: View, d: nat)
    requires d <= |v.below|
    ensures Rests(v, d, v, d)
  {
  }

  lemma RestsLevel(v: View, d: int, w: View, e: int)
    requires Rests(v, d, w, e)
    ensures 0 <= e <= |w.below|
  {
  }

  lemma FirstStays(ops: seq<Op>, d: nat)
    requires ops != [] && Stays(ops, d)
    ensures Stays([ops[0]], d) && Stays(ops[1..], d + Rise(ops[0]))
  {
    assert [ops[0]][1..] == [];
  }

  lemma {:induction false} RunAppend(v: View, p: seq<Op>, q: seq<Op>)
    ensures Run(v, p + q) == Run(Run(v, p), q)
    decreases |p|
  {
    if p == [] {
      assert p + q == q;
    } else {
      assert (p + q)[1..] == p[1..] + q;
      RunAppend(Apply(v, p[0]), p[1..], q);
    }
  }

  /** A pop restores what its push saved and the whole stack with it, whatever edits
      and balanced pushes and pops come between. */
  lemma PopRestores(v: View, body: seq<Op>)
    requires Stays(body, 0) && Depth(body) == 0
    ensures Run(v, [Push] + body + [Pop]) == v
  {
    var w := Apply(v, Push);
    var ops := [Push] + body + [Pop];
    assert ops[1..] == body + [Pop];
    RunAppend(w, body, [Pop]);
    RunStays(w, body, 0);
    var x := Run(w, body);
    assert x.below == w.below;
    assert [Pop][1..] == [];
    assert Run(x, [Pop]) == Run(Apply(x, Pop), []);
    assert w.below[1..] == v.below;
  }

  // ---- copying -----------------------------------------------------------------------

  /** Copies the parts every item has; restoring also takes away the collections the
      source lacks. */
  function CopyParts(dst: Content, src: Content, restore: bool): Content {
    Content(src.name, src.data,
            if src.attr != [] then src.attr else if restore then [] else dst.attr,
            if src.desc != [] then src.desc else if restore then [] else dst.desc,
            dst.elems)
  }

  // The elements of a list or vect are added one by one.
  method CopyElems(dst: Content, src: Content) returns (c: Content)
    ensures c == dst.(elems := dst.elems + src.elems)
  {
    c := dst;
    var i := 0;
    while i < |src.elems|
      invariant 0 <= i <= |src.elems| && c == dst.(elems := dst.elems + src.elems[..i])
    {
      c := c.(elems := c.elems + [src.elems[i]]);
      assert src.elems[..i + 1] == src.elems[..i] + [src.elems[i]];
      i := i + 1;
    }
    assert src.elems[..i] == src.elems;
  }

  // A snapshot of the content in a new block.
  method Snapshot(live: Content) returns (c: Content)
    ensures c == live
  {
    c := CopyElems(CopyParts(EMPTY, live, false), live);
  }

  // The content of a snapshot brought back over whatever is there now.
  method Restore(live: Content, snapshot: Content) returns (c: Content)
    ensures c == snapshot
  {
    c := live.(elems := []);
    c := CopyElems(CopyParts(c, snapshot, true), snapshot);
  }

  // ---- the chain ---------------------------------------------------------------------

  // The block x has the snapshots q below it, linked from one to the next.
  ghost predicate Linked(m: Store, x: nat, q: seq<nat>) {
    && x in m && Distinct(q) && 0 !in q && x !in q && m[x].stack == First(q)
    && forall i: nat {:trigger q[i]} :: i < |q| ==> q[i] in m && m[q[i]].stack == After(q, i)
  }

  lemma PushLinks(m: Store, x: nat, q: seq<nat>, a: nat, g: Gen)
    requires Linked(m, x, q) && a !in m && a != 0 && g.stack == m[x].stack
    ensures Linked(m[a := g][x := m[x].(stack := a)], x, [a] + q) && a !in q && a != x
  {
    var t, r := m[a := g][x := m[x].(stack := a)], [a] + q;
    assert forall i :: 0 <= i < |q| ==> q[i] in m;
    forall i: nat {:trigger r[i]} | i < |r|
      ensures r[i] in t && t[r[i]].stack == After(r, i)
    {
      if i > 0 {
        assert r[i] == q[i - 1] && q[i - 1] in q;
      }
    }
  }

  // Without its newest snapshot.
  function Unlinked(m: Store, x: nat, a: nat, below: nat): Store
    requires x in m && a in m
  {
    var t := m[x := m[x].(stack := below)];
    t[a := t[a].(stack := 0, parent := 0)]
  }

  lemma PopLinks(m: Store, x: nat, q: seq<nat>)
    requires Linked(m, x, q) && q != []
    ensures q[0] in m && m[x].stack == q[0] != 0 && q[0] != x
    ensures var t := Unlinked(m, x, q[0], m[q[0]].stack);
      && Linked(t - {q[0]}, x, q[1..]) && t[q[0]].stack == 0 && t[q[0]].parent == 0 && q[0] !in q[1..]
  {
    var t, r := Unlinked(m, x, q[0], m[q[0]].stack), q[1..];
    assert q[0] in q && q[0] in m && m[q[0]].stack == After(q, 0);
    forall i: nat {:trigger r[i]} | i < |r|
      ensures r[i] in t - {q[0]} && t[r[i]].stack == After(r, i)
    {
      assert r[i] == q[i + 1] && q[i + 1] in q;
    }
    assert forall i, j :: 0 <= i < j < |r| ==> r[i] == q[i + 1] && r[j] == q[j + 1];
  }

  function Contents(m: Store, q: seq<nat>): (c: seq<Content>)
    ensures |c| == |q|
    ensures forall i :: 0 <= i < |q| && q[i] in m ==> c[i] == m[q[i]].content
  {
    seq(|q|, i requires 0 <= i < |q| => if q[i] in m then m[q[i]].content else EMPTY)
  }

  class Stack {
    const live: nat            // address of the item
    var store: Store           // the blocks of the heap it lives in
    ghost var chain: seq<nat>  // its snapshots, newest first

    ghost predicate Valid()
      reads this
    {
      Linked(store, live, chain)
    }

    // The stack as the value it stands for.
    ghost function Seen(): View
      requires Valid()
      reads this
    {
      View(store[live].content, Contents(store, chain))
    }

    constructor (a: nat, m: Store)
      requires a in m && a != 0 && m[a].stack == 0
      ensures Valid() && live == a && store == m && chain == []
    {
      live, store, chain := a, m, [];
    }

    method Edit(to: Content)
      requires Valid()
      modifies this`store
      ensures Valid() && Seen() == Apply(old(Seen()), Op.Edit(to)) && store.Keys == old(store).Keys
      ensures Seen().live == to && Seen().below == old(Seen()).below
    {
      store := store[live := store[live].(content := to)];
    }

    /** Saves the item in a new block a at the head of its stack. */
    method Push(a: nat)
      requires Valid() && a !in store && a != 0
      modifies this
      ensures Valid() && Seen() == Apply(old(Seen()), Op.Push)
      ensures Seen().live == old(Seen()).live && Seen().below == [old(Seen()).live] + old(Seen()).below
      ensures chain == [a] + old(chain) && store.Keys == old(store).Keys + {a}
      ensures store[a].parent == live
    {
      hide Linked, Contents;
      PlaceFirst(store, live, chain);
      PushLinks(store, live, chain, a, Gen(store[live].content, store[live].stack, live));
      PushSeen(store, live, chain, a);
      var below := store[live].stack;
      store := store[a := Gen(EMPTY, 0, 0)];
      store := store[live := store[live].(stack := a)];
      store := store[a := store[a].(stack := below)];
      store := store[a := store[a].(parent := live)];
      var c := Snapshot(store[live].content);
      store := store[a := store[a].(content := c)];
      assert store == Pushed(old(store), live, a);
      chain := [a] + chain;
    }

    // The heap takes a block back: one that is allocated.
    method Free(a: nat)
      requires a in store
      modifies this`store
      ensures store == old(store) - {a}
    {
      store := store - {a};
    }

    /** Drops an item that belongs to no collection: first its own stack, then its
        block.  A parent would be taken for the collection to leave. */
    method DropItem(a: nat, ghost q: seq<nat>)
      requires Linked(store, a, q) && a in store && store[a].parent == 0
      modifies this`store
      ensures store == old(store) - Gone(q, a)
      decreases |q|, 1
    {
      hide Linked;
      FirstGen(store, a, q);
      if store[a].stack != 0 {
        DropStack(a, q);
      }
      BaredGone(old(store), a, q);
      Free(a);
    }

    /** Drops every snapshot below a, newest first: each is cut loose and then
        dropped, so each is freed once and none drops those below it. */
    method DropStack(a: nat, ghost q: seq<nat>)
      requires Linked(store, a, q)
      modifies this`store
      ensures a in old(store) && store == Bared(old(store), a, q, |q|)
      decreases |q|, 0
    {
      hide Linked;
      PlaceFirst(store, a, q);
      ghost var m, k := store, 0;
      var gen := store[a].stack;
      FirstGen(m, a, q);
      if gen == 0 {
        return;
      }
      store := store[a := store[a].(stack := 0)];
      while gen != 0
        invariant 0 <= k <= |q| && store == Bared(m, a, q, k)
        invariant if k < |q| then gen == q[k] != 0 else gen == 0
        decreases |q| - k
      {
        NextGen(m, a, q, k);
        var next := store[gen].stack;
        store := store[gen := store[gen].(stack := 0)];
        store := store[gen := store[gen].(parent := 0)];
        Alone(store, gen);
        BaredNext(m, a, q, k, store[gen]);
        DropItem(gen, []);
        k := k + 1;
        gen := next;
      }
    }

    /** Drops the whole stack of the item: every snapshot is freed, the item stays. */
    method Drop()
      requires Valid()
      modifies this
      ensures Valid() && Seen() == View(old(Seen()).live, []) && chain == []
      ensures store.Keys == old(store).Keys - (set x | x in old(chain))
    {
      hide Linked;
      DropStack(live, chain);
      BaredAll(old(store), live, chain);
      chain := [];
    }

    /** Brings the newest snapshot back and frees it; those below it stay. */
    method Pop()
      requires Valid()
      modifies this
      ensures Valid() && Seen() == Apply(old(Seen()), Op.Pop)
      ensures old(chain) == [] ==> Seen() == old(Seen())
      ensures old(chain) != [] ==> Seen().live == old(Seen()).below[0] && Seen().below == old(Seen()).below[1..]
      ensures chain == if old(chain) == [] then [] else old(chain)[1..]
      ensures store.Keys == old(store).Keys - if old(chain) == [] then {} else {old(chain)[0]}
    {
      hide Linked, Contents;
      PlaceFirst(store, live, chain);
      FirstGen(store, live, chain);
      var a1 := store[live].stack;
      if a1 == 0 {
        NoContents(store);
        return;
      }
      PopLinks(store, live, chain);
      var a2 := store[a1].stack;
      var c := Restore(store[live].content, store[a1].content);
      store := store[live := store[live].(content := c)];
      store := store[live := store[live].(stack := a2)];
      store := store[a1 := store[a1].(stack := 0, parent := 0)];
      Alone(store, a1);
      PoppedStore(old(store), live, chain, store[a1]);
      assert store == Popped(old(store), live, a1, store[a1]);
      DropItem(a1, []);
      chain := chain[1..];
    }
  }

  // m with the first k snapshots q below a gone, and a cut off from its stack.
  ghost function Bared(m: Store, a: nat, q: seq<nat>, k: nat): Store
    requires a in m && k <= |q|
  {
    if q == [] then m else (m - (set x | x in q[..k]))[a := m[a].(stack := 0)]
  }

  // What dropping an item with its stack frees.
  ghost function Gone(q: seq<nat>, a: nat): set<nat> { (set x | x in q) + {a} }

  lemma BaredGone(m: Store, a: nat, q: seq<nat>)
    requires Linked(m, a, q)
    ensures a in m && a in Bared(m, a, q, |q|) && Bared(m, a, q, |q|) - {a} == m - Gone(q, a)
  {
    assert q[..|q|] == q;
  }

  lemma FirstGen(m: Store, a: nat, q: seq<nat>)
    requires Linked(m, a, q)
    ensures a in m && if q == [] then m[a].stack == 0 else m[a].stack == q[0] != 0
  {
    assert q != [] ==> q[0] in q;
  }

  // The k-th snapshot is still there when its turn comes, and leads to the next.
  lemma NextGen(m: Store, a: nat, q: seq<nat>, k: nat)
    requires Linked(m, a, q) && k < |q|
    ensures var t := Bared(m, a, q, k);
      && q[k] in t && q[k] != a && t[q[k]] == m[q[k]]
      && (if k + 1 < |q| then m[q[k]].stack == q[k + 1] != 0 else m[q[k]].stack == 0)
  {
    assert q[k] in q && q[k] in m && (k + 1 < |q| ==> q[k + 1] in q);
    assert q[k] !in q[..k];
  }

  lemma Alone(m: Store, a: nat)
    requires a in m && a != 0 && m[a].stack == 0
    ensures Linked(m, a, [])
  {
  }

  lemma BaredNext(m: Store, a: nat, q: seq<nat>, k: nat, g: Gen)
    requires Linked(m, a, q) && k < |q|
    ensures Bared(m, a, q, k)[q[k] := g] - Gone([], q[k]) == Bared(m, a, q, k + 1)
  {
    hide Linked;
    LinkedAt(m, a, q, k);
    assert q[..k + 1] == q[..k] + [q[k]];
    assert forall x :: x in q[..k + 1] <==> x in q[..k] || x == q[k];
  }

  lemma LinkedAt(m: Store, a: nat, q: seq<nat>, k: nat)
    requires Linked(m, a, q) && k < |q|
    ensures a in m && q[k] != a
  {
    assert q[k] in q;
  }

  lemma BaredAll(m: Store, a: nat, q: seq<nat>)
    requires Linked(m, a, q)
    ensures var t := Bared(m, a, q, |q|);
      Linked(t, a, []) && t[a].content == m[a].content && t.Keys == m.Keys - (set x | x in q)
  {
    assert q[..|q|] == q;
    FirstGen(m, a, q);
  }

  lemma NoContents(m: Store)
    ensures Contents(m, []) == []
  {
  }

  // The store once the newest snapshot has been restored and cut off as g.
  function Popped(m: Store, x: nat, a: nat, g: Gen): Store
    requires x in m && a in m
  {
    m[x := m[x].(content := m[a].content, stack := m[a].stack)][a := g]
  }

  // What a pop leaves in the store.
  lemma PoppedStore(m: Store, x: nat, q: seq<nat>, g: Gen)
    requires Linked(m, x, q) && q != []
    ensures x in m && q[0] in m
    ensures var t := Popped(m, x, q[0], g) - Gone([], q[0]);
      && Linked(t, x, q[1..]) && t[x].content == m[q[0]].content && t.Keys == m.Keys - {q[0]}
      && Contents(t, q[1..]) == Contents(m, q)[1..] && Contents(m, q)[0] == m[q[0]].content
  {
    var t, r := Popped(m, x, q[0], g) - Gone([], q[0]), q[1..];
    assert Gone([], q[0]) == {q[0]};
    assert q[0] in q && m[q[0]].stack == After(q, 0);
    forall i: nat {:trigger r[i]} | i < |r|
      ensures r[i] in t && t[r[i]] == m[r[i]] && t[r[i]].stack == After(r, i)
    {
      assert r[i] == q[i + 1] && q[i + 1] in q;
    }
    assert forall i, j :: 0 <= i < j < |r| ==> r[i] == q[i + 1] && r[j] == q[j + 1];
  }

  // The store once a holds a snapshot of x at the head of its stack.
  function Pushed(m: Store, x: nat, a: nat): Store
    requires x in m
  {
    m[a := Gen(m[x].content, m[x].stack, x)][x := m[x].(stack := a)]
  }

  lemma PlaceFirst(m: Store, x: nat, q: seq<nat>)
    requires Linked(m, x, q)
    ensures x in m
  {
  }

  lemma PushSeen(m: Store, x: nat, q: seq<nat>, a: nat)
    requires Linked(m, x, q) && a !in m
    ensures Contents(Pushed(m, x, a), [a] + q) == [m[x].content] + Contents(m, q)
  {
    hide Distinct;
    assert forall i :: 0 <= i < |q| ==> q[i] in m && q[i] != x && q[i] != a by {
      assert forall i :: 0 <= i < |q| ==> q[i] in q && q[i] in m;
    }
  }
}
