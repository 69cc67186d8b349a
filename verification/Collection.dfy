/** Ordered collections of items: a doubly linked list with its ends and a count,
    which refines a plain sequence of addresses. */
module Collection {
  import opened HeapModel
  import opened Mirror
  import opened NamePlaces
  import opened Naming
  import opened Sequences

  // An item as the list sees it.
  datatype Item = Item(name: Name, parent: nat, prev: nat, next: nat, linked: bool)

  type Store = map<nat, Item>

  // ---- sequences -----------------------------------------------------------------

  // The neighbours of the place k: what is before it and what is at it, 0 for none.
  function PlaceBefore(q: seq<nat>, k: nat): nat
    requires k <= |q|
  {
    if k == 0 then 0 else q[k - 1]
  }

  function PlaceAt(q: seq<nat>, k: nat): nat
    requires k <= |q|
  {
    if k == |q| then 0 else q[k]
  }

  // ---- links ---------------------------------------------------------------------

  // The i-th item of q is linked between its neighbours and belongs to owner.
  ghost predicate Joins(m: Store, q: seq<nat>, owner: nat, i: nat)
    requires i < |q|
  {
    && q[i] in m && m[q[i]].linked && m[q[i]].parent == owner
    && m[q[i]].prev == Before(q, i) && m[q[i]].next == After(q, i)
  }

  ghost predicate Spells(m: Store, q: seq<nat>, owner: nat) {
    forall i: nat {:trigger Joins(m, q, owner, i)} :: i < |q| ==> Joins(m, q, owner, i)
  }

  // Items outside q are as they were, and no name changed.
  ghost predicate Only(m: Store, r: Store, q: seq<nat>) {
    && r.Keys == m.Keys
    && forall x :: x in m ==> r[x].name == m[x].name && (x !in q ==> r[x] == m[x])
  }

  function SetPrev(m: Store, x: nat, v: nat): Store { if x in m then m[x := m[x].(prev := v)] else m }

  function SetNext(m: Store, x: nat, v: nat): Store { if x in m then m[x := m[x].(next := v)] else m }

  // m with a linked in between p and n.
  function LinkedIn(m: Store, p: nat, a: nat, n: nat, owner: nat): Store
    requires a in m
  {
    var m1 := m[a := m[a].(linked := true, parent := owner, prev := p, next := n)];
    var m2 := if p != 0 then SetNext(m1, p, a) else m1;
    if n != 0 then SetPrev(m2, n, a) else m2
  }

  lemma LinkedInJoins(m: Store, q: seq<nat>, owner: nat, k: nat, a: nat, i: nat)
    requires Distinct(q) && 0 !in q && Spells(m, q, owner) && k <= |q| && a in m && a != 0 && a !in q && i <= |q|
    ensures Joins(LinkedIn(m, PlaceBefore(q, k), a, PlaceAt(q, k), owner), Inserted(q, k, a), owner, i)
  {
    var r := Inserted(q, k, a);
    InsertedAt(q, k, a, i);
    if i > 0 { InsertedAt(q, k, a, i - 1); }
    if i < |q| { InsertedAt(q, k, a, i + 1); }
    if i != k {
      var j := if i < k then i else i - 1;
      assert Joins(m, q, owner, j) && q[j] in q;
    }
    if k > 0 { assert Joins(m, q, owner, k - 1) && q[k - 1] in q; }
    if k < |q| { assert Joins(m, q, owner, k) && q[k] in q; }
  }

  lemma LinkedInSpells(m: Store, q: seq<nat>, owner: nat, k: nat, a: nat)
    requires Distinct(q) && 0 !in q && Spells(m, q, owner) && k <= |q| && a in m && a != 0 && a !in q
    ensures var r := Inserted(q, k, a);
      && Spells(LinkedIn(m, PlaceBefore(q, k), a, PlaceAt(q, k), owner), r, owner)
      && Distinct(r) && 0 !in r
      && Only(m, LinkedIn(m, PlaceBefore(q, k), a, PlaceAt(q, k), owner), r)
  {
    var r, t := Inserted(q, k, a), LinkedIn(m, PlaceBefore(q, k), a, PlaceAt(q, k), owner);
    forall i: nat {:trigger Joins(t, r, owner, i)} | i < |r|
      ensures Joins(t, r, owner, i)
    {
      LinkedInJoins(m, q, owner, k, a, i);
    }
    if k > 0 { assert Joins(m, q, owner, k - 1); assert r[k - 1] == q[k - 1]; }
    if k < |q| { assert Joins(m, q, owner, k); assert r[k + 1] == q[k]; }
    assert r[k] == a;
  }

  // m with a, between p and n, taken out.
  function LinkedOut(m: Store, p: nat, a: nat, n: nat): Store
    requires a in m
  {
    var m1 := if p != 0 then SetNext(m, p, n) else m;
    var m2 := if n != 0 then SetPrev(m1, n, p) else m1;
    m2[a := m2[a].(prev := 0, next := 0, parent := 0)]
  }

  lemma LinkedOutJoins(m: Store, q: seq<nat>, owner: nat, k: nat, i: nat)
    requires Distinct(q) && 0 !in q && Spells(m, q, owner) && k < |q| && q[k] in m && i + 1 < |q|
    ensures Joins(LinkedOut(m, Before(q, k), q[k], After(q, k)), Dropped(q, k), owner, i)
  {
    DroppedAt(q, k, i);
    if i > 0 { DroppedAt(q, k, i - 1); }
    if i + 2 < |q| { DroppedAt(q, k, i + 1); }
    var j := if i < k then i else i + 1;
    assert Joins(m, q, owner, j) && q[j] in q && q[j] != q[k];
    if k > 0 { assert q[k - 1] in q && q[k - 1] != q[k]; }
    if k + 1 < |q| { assert q[k + 1] in q && q[k + 1] != q[k]; }
  }

  lemma LinkedOutOnly(m: Store, q: seq<nat>, k: nat)
    requires k < |q| && q[k] in m && Before(q, k) != q[k] && After(q, k) != q[k]
    ensures var t := LinkedOut(m, Before(q, k), q[k], After(q, k));
      Only(m, t, q) && t[q[k]] == m[q[k]].(prev := 0, next := 0, parent := 0)
  {
  }

  lemma DroppedOnce(q: seq<nat>, k: nat)
    requires Distinct(q) && k < |q|
    ensures var r := Dropped(q, k); Distinct(r) && q[k] !in r && (forall x :: x in r ==> x in q)
  {
    var r := Dropped(q, k);
    assert forall i :: 0 <= i < |r| ==> r[i] == if i < k then q[i] else q[i + 1];
  }

  lemma LinkedOutSpells(m: Store, q: seq<nat>, owner: nat, k: nat)
    requires Distinct(q) && 0 !in q && Spells(m, q, owner) && k < |q| && q[k] in m
    ensures var r, t := Dropped(q, k), LinkedOut(m, Before(q, k), q[k], After(q, k));
      && Spells(t, r, owner) && Distinct(r) && 0 !in r && q[k] !in r && Only(m, t, q)
      && t[q[k]] == m[q[k]].(prev := 0, next := 0, parent := 0)
  {
    hide LinkedOut, Joins, Only, Distinct, Dropped;
    var r, t := Dropped(q, k), LinkedOut(m, Before(q, k), q[k], After(q, k));
    DroppedOnce(q, k);
    assert q[k] in q;
    PlacesApart(q, k, k);
    LinkedOutOnly(m, q, k);
    assert |r| + 1 == |q| by { DroppedLength(q, k); }
    forall i: nat {:trigger Joins(t, r, owner, i)} | i < |r|
      ensures Joins(t, r, owner, i)
    {
      LinkedOutJoins(m, q, owner, k, i);
    }
  }

  lemma DroppedLength(q: seq<nat>, k: nat)
    requires k < |q|
    ensures |Dropped(q, k)| + 1 == |q|
  {
  }

  // ---- swapping --------------------------------------------------------------------

  // The links of y where x was: between p and n, or next to x if those were y itself.
  function PutFor(m: Store, y: nat, x: nat, p: nat, n: nat): Store {
    var m1 := if p != y then (var t := SetPrev(m, y, p); if p != 0 then SetNext(t, p, y) else t) else SetPrev(m, y, x);
    if n != y then (var t := SetNext(m1, y, n); if n != 0 then SetPrev(t, n, y) else t) else SetNext(m1, y, x)
  }

  // m with the i-th and j-th items of q exchanged.
  function SwappedLinks(m: Store, q: seq<nat>, i: nat, j: nat): Store
    requires i < |q| && j < |q|
  {
    PutFor(PutFor(m, q[j], q[i], Before(q, i), After(q, i)), q[i], q[j], Before(q, j), After(q, j))
  }

  // One field-setting step, at the item z.
  lemma PutForAt(m: Store, y: nat, x: nat, p: nat, n: nat, z: nat)
    requires y in m && z in m && z != 0 && y != 0 && (p != 0 ==> p in m) && (n != 0 ==> n in m) && (p != 0 ==> p != n)
    ensures z in PutFor(m, y, x, p, n)
    ensures PutFor(m, y, x, p, n)[z] == m[z].(
      prev := if z == y then (if p == y then x else p) else if z == n then y else m[z].prev,
      next := if z == y then (if n == y then x else n) else if z == p then y else m[z].next)
  {
  }

  lemma PutForKeys(m: Store, y: nat, x: nat, p: nat, n: nat)
    ensures PutFor(m, y, x, p, n).Keys == m.Keys
  {
  }

  lemma PlacesApart(q: seq<nat>, i: nat, t: nat)
    requires Distinct(q) && 0 !in q && i < |q| && t < |q|
    ensures (q[t] == Before(q, i) <==> t + 1 == i) && (q[t] == After(q, i) <==> t == i + 1)
      && (q[t] == q[i] <==> t == i)
    ensures Before(q, i) != 0 ==> Before(q, i) != After(q, i)
    ensures q[t] != 0
  {
    assert q[t] in q;
  }

  lemma SwapJoins(m: Store, q: seq<nat>, owner: nat, i: nat, j: nat, t: nat)
    requires Distinct(q) && 0 !in q && Spells(m, q, owner) && i < |q| && j < |q| && i != j && t < |q|
    ensures q[t] in SwappedLinks(m, q, i, j)
    ensures var a, b := SwappedLinks(m, q, i, j)[q[t]], m[q[t]];
      var u := if t == i then j else if t == j then i else t;
      a == b.(prev := Before(Swapped(q, i, j), u), next := After(Swapped(q, i, j), u))
  {
    hide PutFor, Spells, Joins, Distinct;
    var m1 := PutFor(m, q[j], q[i], Before(q, i), After(q, i));
    InStore(m, q, owner, t);
    InStore(m, q, owner, i);
    InStore(m, q, owner, j);
    PlacesApart(q, i, t);
    PlacesApart(q, j, t);
    PlacesApart(q, i, j);
    PlacesApart(q, j, i);
    PutForKeys(m, q[j], q[i], Before(q, i), After(q, i));
    PutForAt(m, q[j], q[i], Before(q, i), After(q, i), q[t]);
    PutForAt(m1, q[i], q[j], Before(q, j), After(q, j), q[t]);
  }

  // The items of q and their neighbours are stored, linked as q says.
  lemma InStore(m: Store, q: seq<nat>, owner: nat, t: nat)
    requires Spells(m, q, owner) && t < |q|
    ensures q[t] in m && (Before(q, t) != 0 ==> Before(q, t) in m) && (After(q, t) != 0 ==> After(q, t) in m)
    ensures m[q[t]].prev == Before(q, t) && m[q[t]].next == After(q, t)
    ensures m[q[t]].linked && m[q[t]].parent == owner
  {
    assert Joins(m, q, owner, t);
    if t > 0 { assert Joins(m, q, owner, t - 1); }
    if t + 1 < |q| { assert Joins(m, q, owner, t + 1); }
  }

  /** Exchanging two items, near or far, leaves the links spelling the sequence with
      the two exchanged. */
  lemma SwapSpells(m: Store, q: seq<nat>, owner: nat, i: nat, j: nat)
    requires Distinct(q) && 0 !in q && Spells(m, q, owner) && i < |q| && j < |q| && i != j
    ensures var r, t := Swapped(q, i, j), SwappedLinks(m, q, i, j);
      Spells(t, r, owner) && Distinct(r) && 0 !in r && Only(m, t, q)
  {
    hide SwappedLinks;
    var r, t := Swapped(q, i, j), SwappedLinks(m, q, i, j);
    forall u: nat {:trigger Joins(t, r, owner, u)} | u < |r|
      ensures Joins(t, r, owner, u)
    {
      var v := if u == i then j else if u == j then i else u;
      InStore(m, q, owner, v);
      SwapJoins(m, q, owner, i, j, v);
    }
    SwapOnly(m, q, owner, i, j);
  }

  lemma SwapOnly(m: Store, q: seq<nat>, owner: nat, i: nat, j: nat)
    requires Distinct(q) && 0 !in q && Spells(m, q, owner) && i < |q| && j < |q| && i != j
    ensures Only(m, SwappedLinks(m, q, i, j), q)
  {
    hide SwappedLinks;
    var r := SwappedLinks(m, q, i, j);
    SwapKeys(m, q, i, j);
    forall x | x in m
      ensures r[x].name == m[x].name && (x !in q ==> r[x] == m[x])
    {
      if x in q {
        var t :| 0 <= t < |q| && q[t] == x;
        SwapJoins(m, q, owner, i, j, t);
      } else {
        SwapOutside(m, q, owner, i, j, x);
      }
    }
  }

  lemma SwapKeys(m: Store, q: seq<nat>, i: nat, j: nat)
    requires i < |q| && j < |q|
    ensures SwappedLinks(m, q, i, j).Keys == m.Keys
  {
    PutForKeys(m, q[j], q[i], Before(q, i), After(q, i));
    PutForKeys(PutFor(m, q[j], q[i], Before(q, i), After(q, i)), q[i], q[j], Before(q, j), After(q, j));
  }

  lemma PutForElse(m: Store, y: nat, x: nat, p: nat, n: nat, z: nat)
    requires z in m && z != y && (p != 0 ==> z != p) && (n != 0 ==> z != n)
    ensures z in PutFor(m, y, x, p, n) && PutFor(m, y, x, p, n)[z] == m[z]
  {
  }

  lemma SwapOutside(m: Store, q: seq<nat>, owner: nat, i: nat, j: nat, x: nat)
    requires i < |q| && j < |q| && x in m && x !in q
    ensures x in SwappedLinks(m, q, i, j)
    ensures SwappedLinks(m, q, i, j)[x] == m[x]
  {
    hide PutFor;
    assert x != q[i] && x != q[j];
    assert i > 0 ==> x != q[i - 1];
    assert j > 0 ==> x != q[j - 1];
    assert i + 1 < |q| ==> x != q[i + 1];
    assert j + 1 < |q| ==> x != q[j + 1];
    PutForElse(m, q[j], q[i], Before(q, i), After(q, i), x);
    PutForElse(PutFor(m, q[j], q[i], Before(q, i), After(q, i)), q[i], q[j], Before(q, j), After(q, j), x);
  }

  // ---- the collection ----------------------------------------------------------------

  class Desc {
    const self: nat            // the collection's own address
    var items: Store           // the items, by address
    var first: nat
    var last: nat
    var count: nat
    ghost var order: seq<nat>  // the items in order

    // The links, the ends and the count spell q.
    ghost predicate Reads(q: seq<nat>)
      reads this
    {
      && Distinct(q) && 0 !in q && Spells(items, q, self)
      && first == First(q) && last == Last(q) && count == |q|
    }

    ghost predicate Valid() reads this { Reads(order) }

    constructor (owner: nat, store: Store)
      ensures Valid() && order == [] && items == store && self == owner
    {
      self, items, first, last, count, order := owner, store, 0, 0, 0, [];
    }

    // Writes one field of a stored item.
    method PutPrev(x: nat, v: nat)
      requires x in items
      modifies this`items
      ensures items == SetPrev(old(items), x, v)
    {
      items := items[x := items[x].(prev := v)];
    }

    method PutNext(x: nat, v: nat)
      requires x in items
      modifies this`items
      ensures items == SetNext(old(items), x, v)
    {
      items := items[x := items[x].(next := v)];
    }

    // Writes the links of the item, of its neighbours and the ends, whatever they are.
    method Splice(prev: nat, item: nat, next: nat)
      requires item in items && (prev != 0 ==> prev in items) && (next != 0 ==> next in items)
      modifies this`items, this`first, this`last, this`count
      ensures items == LinkedIn(old(items), prev, item, next, self)
      ensures first == (if prev == 0 then item else old(first)) && last == (if next == 0 then item else old(last))
      ensures count == old(count) + 1
    {
      items := items[item := items[item].(linked := true, parent := self, prev := prev, next := next)];
      if prev != 0 {
        PutNext(prev, item);
      }
      if next != 0 {
        PutPrev(next, item);
      }
      if prev == 0 {
        first := item;
      }
      if next == 0 {
        last := item;
      }
      count := count + 1;
    }

    /** Links the item in between two neighbours: sequence insertion. */
    method LinkinItem(prev: nat, item: nat, next: nat, ghost k: nat)
      requires Valid() && k <= |order| && prev == PlaceBefore(order, k) && next == PlaceAt(order, k)
      requires item in items && item != 0 && item !in order
      modifies this
      ensures Valid() && order == Inserted(old(order), k, item) && Only(old(items), items, order)
    {
      hide Spells, Distinct, Only, First, Last, Inserted;
      LinkedInSpells(items, order, self, k, item);
      PlacesIn(items, order, self, k);
      InsertedEnds(order, k, item);
      Splice(prev, item, next);
      order := Inserted(order, k, item);
    }

    /** The same link with every address checked against the width of its field
        first: an address that does not fit is refused, and then the collection is
        as it was. */
    method LinkinAttr(limit: nat, prev: nat, item: nat, next: nat, ghost k: nat) returns (ok: bool)
      requires Valid() && k <= |order| && prev == PlaceBefore(order, k) && next == PlaceAt(order, k)
      requires item in items && item != 0 && item !in order
      requires forall x :: x in order ==> x < limit
      modifies this
      ensures ok <==> self < limit && item < limit
      ensures Valid() && order == if ok then Inserted(old(order), k, item) else old(order)
      ensures Only(old(items), items, if ok then order else [item])
    {
      hide Spells, Distinct, Only;
      PlacesIn(items, order, self, k);
      PlacesFit(order, k, limit);
      OnlySelf(items, item);
      if self >= limit {
        return false;
      }
      items := items[item := items[item].(parent := self)];
      items := items[item := items[item].(prev := prev)];
      ItemOnly(old(items), items, order, self, item);
      if prev != 0 && item >= limit {
        return false;
      }
      if prev == 0 && item >= limit {
        items := items[item := items[item].(linked := true, next := next)];
        ItemOnly(old(items), items, order, self, item);
        return false;
      }
      ghost var mid := items;
      LinkinItem(prev, item, next, k);
      OnlyAfterItem(old(items), mid, items, order, item, k, old(order));
      ok := true;
    }

    /** Takes the item out: sequence removal. */
    method UnLinkItem(item: nat, ghost k: nat)
      requires Valid() && k < |order| && order[k] == item
      modifies this
      ensures Valid() && order == Dropped(old(order), k) && Only(old(items), items, old(order))
      ensures item in items && items[item].prev == 0 && items[item].next == 0 && items[item].parent == 0
    {
      hide Spells, Distinct, Only, First, Last, Dropped;
      InStore(items, order, self, k);
      LinkedOutSpells(items, order, self, k);
      DroppedEnds(order, k);
      PlacesApart(order, k, k);
      var prev, next := items[item].prev, items[item].next;
      if prev != 0 {
        PutNext(prev, next);
      }
      if next != 0 {
        PutPrev(next, prev);
      }
      count := count - 1;
      if first == item {
        first := next;
      }
      if last == item {
        last := prev;
      }
      items := items[item := items[item].(prev := 0, next := 0, parent := 0)];
      order := Dropped(order, k);
    }

    // One half of a swap: y is put where x is.
    method PutWhere(y: nat, x: nat, p: nat, n: nat)
      requires y in items && (p != 0 ==> p in items) && (n != 0 ==> n in items)
      modifies this`items
      ensures items == PutFor(old(items), y, x, p, n)
    {
      if p != y {
        PutPrev(y, p);
        if p != 0 {
          PutNext(p, y);
        }
      } else {
        PutPrev(y, x);
      }
      if n != y {
        PutNext(y, n);
        if n != 0 {
          PutPrev(n, y);
        }
      } else {
        PutNext(y, x);
      }
    }

    // The ends of the collection once a and b have changed places.
    method SwapEnds(a: nat, b: nat)
      modifies this`first, this`last
      ensures first == (if old(first) == a then b else if old(first) == b then a else old(first))
      ensures last == (if old(last) == a then b else if old(last) == b then a else old(last))
    {
      if first == a {
        first := b;
      } else if first == b {
        first := a;
      }
      if last == a {
        last := b;
      } else if last == b {
        last := a;
      }
    }

    // The links of a and b, and of their neighbours, once they have changed places.
    method SwapLinks(a: nat, b: nat, ghost i: nat, ghost j: nat)
      requires Distinct(order) && 0 !in order && Spells(items, order, self)
      requires i < |order| && j < |order| && i != j && order[i] == a && order[j] == b
      modifies this`items
      ensures items == SwappedLinks(old(items), order, i, j)
    {
      hide Spells, Distinct, PutFor, Before, After;
      InStore(items, order, self, i);
      InStore(items, order, self, j);
      var a1p, a1n, a2p, a2n := items[a].prev, items[a].next, items[b].prev, items[b].next;
      PutForKeys(items, b, a, a1p, a1n);
      PutWhere(b, a, a1p, a1n);
      PutWhere(a, b, a2p, a2n);
    }

    /** Exchanges two items of the collection, wherever they are. */
    method Swap(a: nat, b: nat, ghost i: nat, ghost j: nat)
      requires Valid() && i < |order| && j < |order| && order[i] == a && order[j] == b
      modifies this
      ensures Valid() && order == Swapped(old(order), i, j) && Only(old(items), items, order)
    {
      hide Spells, Distinct, Only, SwappedLinks, First, Last, Swapped;
      PlacesApart(order, i, j);
      if a == b {
        SwapSelf(items, order, i);
        return;
      }
      SwapSpells(items, order, self, i, j);
      SwappedEnds(order, i, j);
      SwapEnds(a, b);
      SwapLinks(a, b, i, j);
      SwapMembers(old(items), items, order, i, j);
      order := Swapped(order, i, j);
    }

    // ---- sorted insertion ----------------------------------------------------------

    /** Inserts an item where the search for its name puts it.  If that is nowhere, the
        item is linked in between nothing and nothing, and what is left is no collection:
        whatever was in it is reached from neither end. */
    method SortinItem(name: Name, item: nat) returns (ghost spot: Spot)
      requires Valid() && item in items && item != 0 && item !in order && items[item].name == name
      modifies this
      ensures spot == Place(Names(old(items), old(order)), name)
      ensures forall l: nat, u: nat :: Parted(Names(old(items), old(order)), name, l, u) ==>
        spot == PlaceByCount(|old(order)|, l, u)
      ensures spot.At? ==> Valid() && order == Inserted(old(order), spot.k, item) && Only(old(items), items, order)
      ensures spot.Nowhere? ==> Only(old(items), items, [item]) && first == last == item && count == old(count) + 1
      ensures spot.Nowhere? <==> forall q :: !Reads(q)
    {
      hide Spells, Distinct, Only, First, Last, Inserted, Place, Parted, PlaceByCount;
      var prev, next;
      prev, next, spot := PlaceOf(name);
      PlacedAsCounted(Names(items, order), name);
      if prev == 0 == next && count > 0 {
        NoPlaceBetween(items, order, self, spot);
        Splice(0, item, 0);
        AloneOnly(old(items), item, self);
        NotSpelled(items, self, item);
      } else {
        LinkinItem(prev, item, next, spot.k);
        assert Reads(order);
      }
    }

    // The neighbours of the place of a name: first or last if it is beyond the ends,
    // else by binary search.
    method PlaceOf(name: Name) returns (prev: nat, next: nat, ghost spot: Spot)
      requires Valid()
      ensures spot == Place(Names(items, order), name)
      ensures spot.At? ==> prev == PlaceBefore(order, spot.k) && next == PlaceAt(order, spot.k)
      ensures spot.Nowhere? ==> prev == 0 == next && order != []
    {
      hide Spells, Distinct, First, Last, Less, Probe;
      var cursor := new Cursor(this);
      spot := Place(Names(items, order), name);
      if count <= 0 {
        return 0, 0, spot;
      }
      NameAt(items, order, self, 0);
      NameAt(items, order, self, count - 1);
      var found := cursor.Goto(0);
      if found && Less(name, items[cursor.current].name) {
        return 0, cursor.current, spot;
      }
      found := cursor.Goto(count - 1);
      if found && NotLess(name, items[cursor.current].name) {
        return cursor.current, 0, spot;
      }
      var imin, imax := Narrow(cursor, name, 0, count - 1);
      prev, next := Settle(cursor, name, imin, imax, spot);
    }

    // Narrows [imin, imax] until at most two items are left.  Of two names one is less
    // or the other is not, so the third arm is never taken.
    method Narrow(cursor: Cursor, name: Name, lo: int, hi: int) returns (imin: int, imax: int)
      requires Valid() && cursor.desc == this && cursor.Valid() && 0 <= lo <= hi < |order|
      modifies cursor
      ensures cursor.Valid() && (imin, imax) == Probe(Names(items, order), name, lo, hi)
    {
      hide Spells, Distinct, First, Last, Less, Probe, Names;
      ghost var names := Names(items, order);
      imin, imax := lo, hi;
      while imax > imin + 1
        invariant 0 <= imin <= imax < |order| && cursor.Valid()
        invariant Probe(names, name, imin, imax) == Probe(names, name, lo, hi)
        decreases imax - imin
      {
        ProbeTurn(names, name, imin, imax);
        var imid := (imin + imax) / 2;
        var found := cursor.Goto(imid);
        NameAt(items, order, self, imid);
        if Less(items[cursor.current].name, name) {
          imin := imid + 1;
        } else if NotLess(items[cursor.current].name, name) {
          imax := imid - 1;
        } else {
          assert false;
        }
      }
      ProbeTurn(names, name, imin, imax);
    }

    // Before the lower of the two items left, between them, after the upper one, or
    // nowhere.
    method Settle(cursor: Cursor, name: Name, imin: int, imax: int, ghost spot: Spot) returns (prev: nat, next: nat)
      requires Valid() && cursor.desc == this && cursor.Valid() && 0 <= imin <= imax < |order|
      requires spot == Settled(Names(items, order), name, imin, imax)
      modifies cursor
      ensures spot.At? ==>
        spot.k <= |order| && prev == PlaceBefore(order, spot.k) && next == PlaceAt(order, spot.k)
      ensures spot.Nowhere? ==> prev == 0 == next
    {
      hide Spells, Distinct, First, Last, Less;
      NameAt(items, order, self, imin);
      NameAt(items, order, self, imax);
      prev, next := 0, 0;
      var found := cursor.Goto(imin);
      if found && Less(name, items[cursor.current].name) {
        return items[cursor.current].prev, cursor.current;
      }
      found := cursor.Goto(imax);
      if found && Less(name, items[cursor.current].name) {
        return items[cursor.current].prev, cursor.current;
      }
      found := cursor.Goto(imax);
      if found && Less(items[cursor.current].name, name) {
        return cursor.current, items[cursor.current].next;
      }
    }
  }

  // ---- the cursor --------------------------------------------------------------------

  class Cursor {
    const desc: Desc
    var index: int         // index of the current item
    var current: nat          // the current item, 0 for none

    ghost predicate Valid()
      reads this, desc
    {
      desc.Valid() && (current != 0 ==> 0 <= index < |desc.order| && current == desc.order[index])
    }

    constructor (d: Desc)
      requires d.Valid()
      ensures desc == d && Valid()
    {
      desc, index, current := d, 0, 0;
    }

    /** Walks to an item by index from the nearer end, and tells how many links it
        followed: at most half of them. */
    method Seek(wanted: int) returns (item: nat, i: int, hops: nat)
      requires desc.Valid() && 0 <= wanted
      ensures item == 0 ==> |desc.order| <= wanted
      ensures item != 0 ==>
        wanted < |desc.order| && item == desc.order[wanted] && i == wanted && hops <= |desc.order| / 2
    {
      hide Spells, Distinct, Before, After, Joins, First, Last, Walking;
      hops := 0;
      var size: int := desc.count;
      ghost var forwards := wanted <= size / 2;
      if wanted <= size / 2 {
        item, i := desc.first, 0;
      } else {
        item, i := desc.last, size - 1;
      }
      WalkBegins(desc.order, i, item, wanted, forwards);
      while item != 0
        invariant Walking(desc.order, i, item, wanted, forwards, hops)
        decreases if item == 0 then 0 else 1 + if i < wanted then wanted - i else i - wanted
      {
        WalkGoesOn(desc.order, i, item, wanted, forwards, hops);
        LinkLeads(desc.items, desc.order, desc.self, i);
        if i < wanted {
          item, i := desc.items[item].next, i + 1;
        } else if i > wanted {
          item, i := desc.items[item].prev, i - 1;
        } else {
          break;
        }
        hops := hops + 1;
      }
      WalkOver(desc.order, i, item, wanted, forwards, hops);
    }

    /** Moves to an item by index. */
    method Goto(wanted: int) returns (found: bool)
      requires Valid() && 0 <= wanted
      modifies this
      ensures Valid() && (found <==> wanted < |desc.order|)
      ensures found ==> index == wanted && current == desc.order[wanted]
      ensures !found ==> index == |desc.order| && current == 0
    {
      if index == wanted && current != 0 {
        return true;
      }
      current := 0;
      var item, i, _ := Seek(wanted);
      index := i;
      if item != 0 {
        current := item;
        return true;
      }
      index := desc.count;
      found := false;
    }
  }

  // A walk towards index n of q stands at a, the item of index i, or has left q; it
  // has followed hops links from one end.
  ghost predicate Walking(q: seq<nat>, i: int, a: nat, n: int, forwards: bool, hops: nat) {
    if a == 0 then |q| <= n
    else
      && 0 <= i < |q| && a == q[i] && (forwards ==> n <= |q| / 2) && (!forwards ==> |q| / 2 < n)
      && (if forwards then hops == i <= n else hops == |q| - 1 - i && (n <= i || hops == 0))
  }

  lemma WalkBegins(q: seq<nat>, i: int, a: nat, n: int, forwards: bool)
    requires 0 !in q && 0 <= n && (forwards <==> n <= |q| / 2)
    requires if forwards then i == 0 && a == First(q) else i == |q| - 1 && a == Last(q)
    ensures Walking(q, i, a, n, forwards, 0)
  {
    EndsNonzero(q);
  }

  lemma WalkGoesOn(q: seq<nat>, i: int, a: nat, n: int, forwards: bool, hops: nat)
    requires Walking(q, i, a, n, forwards, hops) && a != 0 && 0 <= n && 0 !in q
    ensures 0 <= i < |q| && a == q[i]
    ensures i < n ==> Walking(q, i + 1, if i + 1 < |q| then q[i + 1] else 0, n, forwards, hops + 1)
    ensures i > n ==> i > 0 && Walking(q, i - 1, q[i - 1], n, forwards, hops + 1)
  {
    assert i + 1 < |q| ==> q[i + 1] in q;
    assert i > 0 ==> q[i - 1] in q;
  }

  lemma WalkOver(q: seq<nat>, i: int, a: nat, n: int, forwards: bool, hops: nat)
    requires Walking(q, i, a, n, forwards, hops) && 0 <= n && (a != 0 ==> i == n)
    ensures if a == 0 then |q| <= n else n < |q| && a == q[n] && hops <= |q| / 2
  {
  }

  lemma EndsNonzero(q: seq<nat>)
    requires 0 !in q
    ensures if q == [] then First(q) == 0 == Last(q) else First(q) == q[0] != 0 && Last(q) == q[|q| - 1] != 0
  {
    assert q != [] ==> q[0] in q && q[|q| - 1] in q;
  }

  // What the links of the i-th item lead to.
  lemma LinkLeads(m: Store, q: seq<nat>, owner: nat, i: nat)
    requires Spells(m, q, owner) && 0 !in q && i < |q|
    ensures q[i] in m
    ensures if i == 0 then m[q[i]].prev == 0 else m[q[i]].prev == q[i - 1] != 0
    ensures if i + 1 == |q| then m[q[i]].next == 0 else m[q[i]].next == q[i + 1] != 0
  {
    InStore(m, q, owner, i);
    assert i > 0 ==> q[i - 1] in q;
    assert i + 1 < |q| ==> q[i + 1] in q;
  }

  // ---- names ---------------------------------------------------------------------------

  // The names of the items of q.
  ghost function Names(m: Store, q: seq<nat>): (r: seq<Name>)
    ensures |r| == |q|
  {
    seq(|q|, i requires 0 <= i < |q| => if q[i] in m then m[q[i]].name else [])
  }

  lemma NameAt(m: Store, q: seq<nat>, owner: nat, i: nat)
    requires Spells(m, q, owner) && i < |q|
    ensures q[i] in m && Names(m, q)[i] == m[q[i]].name
    ensures m[q[i]].prev == PlaceBefore(q, i) && m[q[i]].next == PlaceAt(q, i + 1)
  {
    InStore(m, q, owner, i);
  }

  // Only in an empty collection is there a place with nothing on either side.
  lemma NoPlaceBetween(m: Store, q: seq<nat>, owner: nat, spot: Spot)
    requires Spells(m, q, owner) && 0 !in q && q != []
    requires spot.At? ==> spot.k <= |q| && PlaceBefore(q, spot.k) == 0 == PlaceAt(q, spot.k)
    ensures spot.Nowhere?
  {
    if spot.At? {
      PlacesIn(m, q, owner, spot.k);
    }
  }

  lemma AloneOnly(m: Store, item: nat, owner: nat)
    requires item in m
    ensures Only(m, LinkedIn(m, 0, item, 0, owner), [item])
  {
  }

  // An item with no neighbours is not the first of several.
  lemma NotSpelled(m: Store, owner: nat, item: nat)
    requires item in m && m[item].next == 0
    ensures forall q: seq<nat> :: |q| > 1 && First(q) == item && 0 !in q ==> !Spells(m, q, owner)
  {
    forall q: seq<nat> | |q| > 1 && First(q) == item && 0 !in q
      ensures !Spells(m, q, owner)
    {
      assert q[1] in q;
      if Spells(m, q, owner) {
        InStore(m, q, owner, 0);
      }
    }
  }

  // ---- the ends --------------------------------------------------------------------

  lemma PlacesIn(m: Store, q: seq<nat>, owner: nat, k: nat)
    requires Spells(m, q, owner) && k <= |q| && 0 !in q
    ensures (k > 0 ==> PlaceBefore(q, k) in m) && (k < |q| ==> PlaceAt(q, k) in m)
    ensures (PlaceBefore(q, k) == 0 <==> k == 0) && (PlaceAt(q, k) == 0 <==> k == |q|)
  {
    if k > 0 { assert Joins(m, q, owner, k - 1) && q[k - 1] in q; }
    if k < |q| { assert Joins(m, q, owner, k) && q[k] in q; }
  }

  lemma PlacesFit(q: seq<nat>, k: nat, limit: nat)
    requires k <= |q| && forall x :: x in q ==> x < limit
    ensures (k > 0 ==> PlaceBefore(q, k) < limit) && (k < |q| ==> PlaceAt(q, k) < limit)
  {
    assert k > 0 ==> q[k - 1] in q;
    assert k < |q| ==> q[k] in q;
  }

  // m and r differ at most in the links of a, which is not in the collection.
  ghost predicate Beside(m: Store, r: Store, a: nat) {
    a in m && r.Keys == m.Keys && r[a].name == m[a].name && forall x :: x in m && x != a ==> r[x] == m[x]
  }

  lemma OnlySelf(m: Store, a: nat)
    requires a in m
    ensures Only(m, m, [a])
  {
  }

  lemma ItemOnly(m: Store, r: Store, q: seq<nat>, owner: nat, a: nat)
    requires Spells(m, q, owner) && a !in q && Beside(m, r, a)
    ensures Spells(r, q, owner) && Only(m, r, [a])
  {
    forall i: nat {:trigger Joins(r, q, owner, i)} | i < |q|
      ensures Joins(r, q, owner, i)
    {
      assert Joins(m, q, owner, i) && q[i] in q;
    }
  }

  lemma OnlyAfterItem(m: Store, s: Store, r: Store, t: seq<nat>, a: nat, k: nat, q: seq<nat>)
    requires k <= |q| && t == Inserted(q, k, a) && Beside(m, s, a) && Only(s, r, t)
    ensures Only(m, r, t)
  {
    assert t[k] == a;
  }

  lemma InsertedEnds(q: seq<nat>, k: nat, a: nat)
    requires k <= |q|
    ensures var r := Inserted(q, k, a);
      && |r| == |q| + 1
      && First(r) == (if k == 0 then a else First(q)) && Last(r) == (if k == |q| then a else Last(q))
  {
  }

  lemma DroppedEnds(q: seq<nat>, k: nat)
    requires Distinct(q) && 0 !in q && k < |q|
    ensures var r := Dropped(q, k);
      && |r| + 1 == |q|
      && First(r) == (if First(q) == q[k] then After(q, k) else First(q))
      && Last(r) == (if Last(q) == q[k] then Before(q, k) else Last(q))
  {
  }

  lemma SwappedEnds(q: seq<nat>, i: nat, j: nat)
    requires Distinct(q) && i < |q| && j < |q| && i != j
    ensures var r := Swapped(q, i, j);
      && |r| == |q|
      && First(r) == (if First(q) == q[i] then q[j] else if First(q) == q[j] then q[i] else First(q))
      && Last(r) == (if Last(q) == q[i] then q[j] else if Last(q) == q[j] then q[i] else Last(q))
  {
  }

  lemma SwapSelf(m: Store, q: seq<nat>, i: nat)
    requires i < |q|
    ensures Swapped(q, i, i) == q && Only(m, m, q)
  {
  }

  // The same items as before, so the same ones outside.
  lemma SwapMembers(m: Store, t: Store, q: seq<nat>, i: nat, j: nat)
    requires i < |q| && j < |q| && Only(m, t, q)
    ensures Only(m, t, Swapped(q, i, j))
  {
    var r := Swapped(q, i, j);
    forall x
      ensures x in r <==> x in q
    {
      if x in q {
        var t :| 0 <= t < |q| && q[t] == x;
        assert r[if t == i then j else if t == j then i else t] == x;
      }
      if x in r {
        var t :| 0 <= t < |r| && r[t] == x;
        assert q[if t == i then j else if t == j then i else t] == x;
      }
    }
  }
}
