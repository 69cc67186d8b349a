/** The recursive cursor: a chain of cursors, one a level, that a client drives by
    visiting, pushing into fields and stepping on. */
module TreeWalk {

  // An item of a message: a field has items of its own to push into; lists and
  // vects are passed over whole.
  datatype Tree = Node(id: nat, field: bool, kids: seq<Tree>)

  // Every item under a field, each before what it holds.
  function Preorder(ts: seq<Tree>): seq<nat> {
    if ts == [] then [] else Under(ts[0]) + Preorder(ts[1..])
  }

  function Under(t: Tree): seq<nat> {
    [t.id] + if t.field then Preorder(t.kids) else []
  }

  // ---- what the order covers ---------------------------------------------------------

  // The item a path of indices leads to from the items ts, through fields.
  function Follow(ts: seq<Tree>, path: seq<nat>): seq<Tree>
    decreases |path|
  {
    if path == [] || |ts| <= path[0] then []
    else if |path| == 1 then [ts[path[0]]]
    else if ts[path[0]].field then Follow(ts[path[0]].kids, path[1..])
    else []
  }

  ghost predicate Reachable(ts: seq<Tree>, id: nat) {
    exists path: seq<nat> :: Leads(ts, path, id)
  }

  predicate Leads(ts: seq<Tree>, path: seq<nat>, id: nat) {
    Follow(ts, path) != [] && Follow(ts, path)[0].id == id
  }

  lemma {:induction false} PathInOrder(ts: seq<Tree>, path: seq<nat>, id: nat)
    requires Leads(ts, path, id)
    ensures id in Preorder(ts)
    decreases |path|, |ts|
  {
    if path[0] == 0 {
      if |path| > 1 {
        PathInOrder(ts[0].kids, path[1..], id);
      }
    } else {
      var next := [path[0] - 1] + path[1..];
      assert next[1..] == path[1..] && ts[1..][path[0] - 1] == ts[path[0]];
      PathInOrder(ts[1..], next, id);
    }
  }

  lemma {:induction false} OrderHasPath(ts: seq<Tree>, id: nat) returns (path: seq<nat>)
    requires id in Preorder(ts)
    ensures Leads(ts, path, id)
    decreases ts
  {
    if id == ts[0].id {
      path := [0];
    } else if ts[0].field && id in Preorder(ts[0].kids) {
      var inner := OrderHasPath(ts[0].kids, id);
      path := [0] + inner;
      assert path[1..] == inner;
    } else {
      var rest := OrderHasPath(ts[1..], id);
      path := [rest[0] + 1] + rest[1..];
      assert path[1..] == rest[1..] && ts[rest[0] + 1] == ts[1..][rest[0]];
    }
  }

  /** The order lists exactly the items that can be reached through fields. */
  lemma OrderCovers(ts: seq<Tree>, id: nat)
    ensures id in Preorder(ts) <==> Reachable(ts, id)
  {
    if id in Preorder(ts) {
      var path := OrderHasPath(ts, id);
    }
    if path :| Leads(ts, path, id) {
      PathInOrder(ts, path, id);
    }
  }

  function Size(ts: seq<Tree>): nat {
    if ts == [] then 0 else 1 + (if ts[0].field then Size(ts[0].kids) else 0) + Size(ts[1..])
  }

  /** It lists each of them once: as many entries as there are items. */
  lemma {:induction false} OrderSize(ts: seq<Tree>)
    ensures |Preorder(ts)| == Size(ts)
    decreases ts
  {
    if ts != [] {
      if ts[0].field {
        OrderSize(ts[0].kids);
      }
      OrderSize(ts[1..]);
    }
  }

  // ---- the order by paths ----------------------------------------------------------------

  // The path p comes before q: it leads to something that holds what q leads to, or at the
  // first step where they part it takes the lower index.
  predicate Precedes(p: seq<nat>, q: seq<nat>) {
    if q == [] then false
    else p == [] || p[0] < q[0] || (p[0] == q[0] && Precedes(p[1..], q[1..]))
  }

  // Every path that leads somewhere, level by level.
  function Paths(ts: seq<Tree>): seq<seq<nat>> {
    if ts == [] then []
    else
      [[0]] + (if ts[0].field then Inward(Paths(ts[0].kids)) else []) + Along(Paths(ts[1..]))
  }

  // The paths behind a first step to index 0, and those with their first step one further.
  function Inward(ps: seq<seq<nat>>): (r: seq<seq<nat>>)
    ensures |r| == |ps| && forall i :: 0 <= i < |r| ==> r[i] == [0] + ps[i]
  {
    seq(|ps|, i requires 0 <= i < |ps| => [0] + ps[i])
  }

  function Further(p: seq<nat>): seq<nat> { if p == [] then [] else [p[0] + 1] + p[1..] }

  function Along(ps: seq<seq<nat>>): (r: seq<seq<nat>>)
    ensures |r| == |ps| && forall i :: 0 <= i < |r| ==> r[i] == Further(ps[i])
  {
    seq(|ps|, i requires 0 <= i < |ps| => Further(ps[i]))
  }

  lemma FollowInward(ts: seq<Tree>, p: seq<nat>, id: nat)
    requires ts != [] && ts[0].field && p != [] && Leads(ts[0].kids, p, id)
    ensures Leads(ts, [0] + p, id)
  {
    assert ([0] + p)[1..] == p;
  }

  lemma FollowAlong(ts: seq<Tree>, p: seq<nat>, id: nat)
    requires ts != [] && p != [] && Leads(ts[1..], p, id)
    ensures Further(p) != [] && Leads(ts, Further(p), id)
  {
    var q := [p[0] + 1] + p[1..];
    assert q[1..] == p[1..] && ts[p[0] + 1] == ts[1..][p[0]];
  }

  // What the first item holds, if it is a field.
  function Held(ts: seq<Tree>): seq<Tree>
    requires ts != []
  {
    if ts[0].field then ts[0].kids else []
  }

  // Where the k-th path comes from: the first item, what it holds, or the items behind it.
  lemma PathAt(ts: seq<Tree>, k: nat)
    requires ts != [] && k < |Paths(ts)|
    ensures var inner, rest := Paths(Held(ts)), Paths(ts[1..]);
      && |Paths(ts)| == 1 + |inner| + |rest| && (k == 0 ==> Paths(ts)[k] == [0])
      && (0 < k <= |inner| ==> Paths(ts)[k] == [0] + inner[k - 1])
      && (|inner| < k ==> Paths(ts)[k] == Further(rest[k - |inner| - 1]))
  {
    hide Along, Inward, Further;
    NoPaths();
    ThreeParts([0], Inward(Paths(Held(ts))), Along(Paths(ts[1..])), k);
  }

  lemma ThreeParts<T>(x: T, p: seq<T>, q: seq<T>, k: nat)
    requires k < |[x] + p + q|
    ensures var r := [x] + p + q;
      && |r| == 1 + |p| + |q| && (k == 0 ==> r[k] == x)
      && (0 < k <= |p| ==> r[k] == p[k - 1]) && (|p| < k ==> r[k] == q[k - |p| - 1])
  {
  }

  lemma EntryAt(ts: seq<Tree>, k: nat)
    requires ts != [] && k < |Preorder(ts)|
    ensures var inner, rest := Preorder(Held(ts)), Preorder(ts[1..]);
      && |Preorder(ts)| == 1 + |inner| + |rest| && (k == 0 ==> Preorder(ts)[k] == ts[0].id)
      && (0 < k <= |inner| ==> Preorder(ts)[k] == inner[k - 1])
      && (|inner| < k ==> Preorder(ts)[k] == rest[k - |inner| - 1])
  {
    assert Preorder([]) == [];
    ThreeParts(ts[0].id, Preorder(Held(ts)), Preorder(ts[1..]), k);
  }

  lemma {:induction false} PathsCount(ts: seq<Tree>)
    ensures |Paths(ts)| == |Preorder(ts)|
    decreases ts
  {
    if ts != [] {
      if ts[0].field {
        PathsCount(ts[0].kids);
      }
      PathsCount(ts[1..]);
      PathAt(ts, 0);
      EntryAt(ts, 0);
    }
  }

  lemma {:induction false} PathLeads(ts: seq<Tree>, k: nat)
    requires k < |Paths(ts)|
    ensures |Paths(ts)| == |Preorder(ts)| && Paths(ts)[k] != [] && Leads(ts, Paths(ts)[k], Preorder(ts)[k])
    decreases ts
  {
    hide Follow, Leads, Paths, Preorder, Inward, Along, Further;
    PathsCount(ts);
    NoPaths();
    if ts != [] {
      PathsCount(Held(ts));
      PathsCount(ts[1..]);
      PathAt(ts, k);
      EntryAt(ts, k);
      FirstLeads(ts);
      var n := |Paths(Held(ts))|;
      if 0 < k <= n {
        PathLeads(Held(ts), k - 1);
        FollowInward(ts, Paths(Held(ts))[k - 1], Preorder(Held(ts))[k - 1]);
      } else if n < k {
        PathLeads(ts[1..], k - n - 1);
        FollowAlong(ts, Paths(ts[1..])[k - n - 1], Preorder(ts[1..])[k - n - 1]);
      }
    }
  }

  lemma NoPaths()
    ensures Paths([]) == []
  {
  }

  lemma FirstLeads(ts: seq<Tree>)
    requires ts != []
    ensures Leads(ts, [0], ts[0].id)
  {
  }

  // One step more in front of both, or one further in both, keeps the order.
  lemma StepPrecedes(p: seq<nat>, q: seq<nat>)
    ensures Precedes([0] + p, [0] + q) == Precedes(p, q)
    ensures p != [] && q != [] ==> Precedes(Further(p), Further(q)) == Precedes(p, q)
    ensures q != [] ==> Precedes([0] + p, Further(q)) && Precedes([0], Further(q))
    ensures q != [] ==> Precedes([0], [0] + q)
  {
    assert ([0] + p)[1..] == p && ([0] + q)[1..] == q && [0][1..] == [];
    if p != [] && q != [] {
      assert ([p[0] + 1] + p[1..])[1..] == p[1..] && ([q[0] + 1] + q[1..])[1..] == q[1..];
    }
  }

  lemma FurtherAt(ts: seq<Tree>, k: nat)
    requires ts != [] && |Paths(Held(ts))| < k < |Paths(ts)|
    ensures var i := k - |Paths(Held(ts))| - 1;
      i < |Paths(ts[1..])| && Paths(ts[1..])[i] != [] && Paths(ts)[k] == Further(Paths(ts[1..])[i])
  {
    hide Paths, Preorder, Follow, Leads, Inward, Along, Further, Held;
    PathAt(ts, k);
    PathLeads(ts[1..], k - |Paths(Held(ts))| - 1);
  }

  lemma {:induction false} PathsRise(ts: seq<Tree>, i: nat, j: nat)
    requires i < j < |Paths(ts)|
    ensures Precedes(Paths(ts)[i], Paths(ts)[j])
    decreases ts
  {
    hide Paths, Precedes, Preorder, Follow, Leads, Inward, Along, Further;
    NoPaths();
    assert ts != [];
    var inner, rest, n := Paths(Held(ts)), Paths(ts[1..]), |Paths(Held(ts))|;
    if n < i {
      FurtherAt(ts, i);
      FurtherAt(ts, j);
      PathsRise(ts[1..], i - n - 1, j - n - 1);
      StepPrecedes(rest[i - n - 1], rest[j - n - 1]);
    } else if n < j {
      PathAt(ts, i);
      FurtherAt(ts, j);
      StepPrecedes(if i == 0 then [] else inner[i - 1], rest[j - n - 1]);
    } else {
      PathAt(ts, i);
      PathAt(ts, j);
      PathLeads(Held(ts), j - 1);
      if 0 < i {
        PathsRise(Held(ts), i - 1, j - 1);
      }
      StepPrecedes(if i == 0 then [] else inner[i - 1], inner[j - 1]);
    }
  }

  // Where a path leads from the first item, or from those behind it.
  lemma FollowParts(ts: seq<Tree>, p: seq<nat>)
    requires Follow(ts, p) != []
    ensures p != [] && ts != [] && (p[0] == 0 && |p| > 1 ==> Follow(Held(ts), p[1..]) != [])
    ensures p[0] > 0 ==> Follow(ts[1..], [p[0] - 1] + p[1..]) != []
  {
    if p[0] > 0 {
      var next := [p[0] - 1] + p[1..];
      assert next[1..] == p[1..] && ts[1..][p[0] - 1] == ts[p[0]];
    }
  }

  lemma {:induction false} PathListed(ts: seq<Tree>, p: seq<nat>) returns (k: nat)
    requires Follow(ts, p) != []
    ensures k < |Paths(ts)| && Paths(ts)[k] == p
    decreases |p|, |ts|
  {
    hide Paths, Follow, Inward, Along, Further, Held;
    FollowParts(ts, p);
    PathsSize(ts);
    k := 0;
    if p[0] > 0 {
      var i := PathListed(ts[1..], [p[0] - 1] + p[1..]);
      k := i + |Paths(Held(ts))| + 1;
      FurtherAt(ts, k);
      FurtherBack(p);
    } else if |p| > 1 {
      var i := PathListed(Held(ts), p[1..]);
      k := i + 1;
      assert p == [0] + p[1..];
    }
    PathAt(ts, k);
  }

  lemma FurtherBack(p: seq<nat>)
    requires p != [] && p[0] > 0
    ensures Further([p[0] - 1] + p[1..]) == p
  {
  }

  lemma PathsSize(ts: seq<Tree>)
    requires ts != []
    ensures |Paths(ts)| == 1 + |Paths(Held(ts))| + |Paths(ts[1..])|
  {
    assert Paths([]) == [];
  }

  /** The order is that of the paths: the k-th item is what the k-th path leads to, each
      path precedes the next, so what holds something comes before it and what is listed
      earlier before what is listed later, and no path is missing. */
  lemma OrderByPaths(ts: seq<Tree>)
    ensures |Paths(ts)| == |Preorder(ts)|
    ensures forall k: nat :: k < |Paths(ts)| ==> Leads(ts, Paths(ts)[k], Preorder(ts)[k])
    ensures forall i: nat, j: nat :: i < j < |Paths(ts)| ==> Precedes(Paths(ts)[i], Paths(ts)[j])
    ensures forall p :: Follow(ts, p) != [] ==> p in Paths(ts)
  {
    hide Paths, Precedes, Follow;
    PathsCount(ts);
    forall k: nat | k < |Paths(ts)|
      ensures Leads(ts, Paths(ts)[k], Preorder(ts)[k])
    {
      PathLeads(ts, k);
    }
    forall i: nat, j: nat | i < j < |Paths(ts)|
      ensures Precedes(Paths(ts)[i], Paths(ts)[j])
    {
      PathsRise(ts, i, j);
    }
    forall p | Follow(ts, p) != []
      ensures p in Paths(ts)
    {
      var k := PathListed(ts, p);
    }
  }

  // ---- the chain of cursors ------------------------------------------------------------

  // A cursor over items: its index, -1 before the first and the count past the last.
  datatype Frame = Frame(kids: seq<Tree>, item: int)

  predicate InRange(f: Frame) { -1 <= f.item <= |f.kids| }

  // No item follows.
  predicate EoCursor(f: Frame) { |f.kids| == 0 || f.item >= |f.kids| - 1 }

  function Goto(f: Frame, n: nat): Frame { f.(item := if n < |f.kids| then n else |f.kids|) }

  predicate AllInRange(chain: seq<Frame>) { forall i :: 0 <= i < |chain| ==> InRange(chain[i]) }

  // One back, or before the first.
  function Back(f: Frame): Frame
    requires 0 <= f.item
  {
    if f.item == 0 || |f.kids| == 0 then f.(item := -1)
    else Goto(f, (if f.item > |f.kids| then |f.kids| else f.item) - 1)
  }

  // What is still to come behind the current item: first in the innermost level.
  function Ahead(chain: seq<Frame>): seq<nat>
    requires AllInRange(chain)
  {
    if chain == [] then []
    else
      var f := chain[|chain| - 1];
      (if f.item < |f.kids| then Preorder(f.kids[f.item + 1..]) else []) + Ahead(chain[..|chain| - 1])
  }

  class Recurs {
    var chain: seq<Frame>      // outermost cursor first

    ghost predicate Valid()
      reads this
    {
      chain != [] && AllInRange(chain)
    }

    // There is a current item.
    predicate Active()
      reads this
    {
      chain != [] && 0 <= chain[|chain| - 1].item < |chain[|chain| - 1].kids|
    }

    function Current(): Tree
      requires Active()
      reads this
    {
      chain[|chain| - 1].kids[chain[|chain| - 1].item]
    }

    constructor (root: Tree)
      ensures Valid() && chain == [Goto(Frame(root.kids, 0), 0)]
    {
      chain := [Goto(Frame(root.kids, 0), 0)];
    }

    /** Nothing is left: only the outermost cursor is, and it is past its last item. */
    predicate IsEoRecurs()
      requires chain != []
      reads this
    {
      |chain| == 1 && EoCursor(chain[0]) && chain[0].item >= |chain[0].kids|
    }

    /** Goes into the current field: a new level, before its first item. */
    method Push()
      requires Valid() && Active() && Current().field
      modifies this
      ensures Valid() && Ahead(chain) == Preorder(old(Current().kids)) + Ahead(old(chain))
    {
      var kids := Current().kids;
      var f := Goto(Frame(kids, 0), 0);
      f := Back(f);
      ghost var was := chain;
      chain := chain + [f];
      assert chain[..|chain| - 1] == was;
      assert kids[0..] == kids;
    }

    /** Leaves the innermost level. */
    method Pop()
      requires Valid() && |chain| > 1
      modifies this
      ensures Valid() && chain == old(chain)[..|old(chain)| - 1]
    {
      chain := chain[..|chain| - 1];
    }

    /** Steps on: to the next item of the innermost level that has one, or past the
        end of the outermost. */
    method Next()
      requires Valid()
      modifies this
      ensures Valid() && (Active() || IsEoRecurs())
      ensures Active() ==> Under(Current()) + Ahead(chain) == Ahead(old(chain))
      ensures !Active() ==> Ahead(old(chain)) == []
    {
      hide Ahead, Under, Preorder;
      while EoCursor(chain[|chain| - 1]) && |chain| > 1
        invariant Valid() && Ahead(chain) == Ahead(old(chain))
        decreases |chain|
      {
        SpentFrame(chain);
        Pop();
      }
      StepAhead(chain);
      var k := |chain| - 1;
      chain := chain[..k] + [Goto(chain[k], chain[k].item + 1)];
    }
  }

  // A level with no item left adds nothing.
  lemma SpentFrame(chain: seq<Frame>)
    requires chain != [] && AllInRange(chain) && EoCursor(chain[|chain| - 1])
    ensures Ahead(chain) == Ahead(chain[..|chain| - 1])
  {
    var f := chain[|chain| - 1];
    assert f.item < |f.kids| ==> f.kids[f.item + 1..] == [];
  }

  // Stepping on in the innermost level.
  lemma StepAhead(chain: seq<Frame>)
    requires chain != [] && AllInRange(chain)
    ensures var k := |chain| - 1;
      var f := chain[k];
      var next := chain[..k] + [Goto(f, f.item + 1)];
      && AllInRange(next)
      && (f.item + 1 < |f.kids| ==> Under(f.kids[f.item + 1]) + Ahead(next) == Ahead(chain))
      && (|f.kids| <= f.item + 1 && k == 0 ==> Ahead(chain) == [])
  {
    hide Preorder, Under;
    var k := |chain| - 1;
    var f := chain[k];
    var next := chain[..k] + [Goto(f, f.item + 1)];
    assert next[..k] == chain[..k];
    StepFrame(f);
    if k == 0 {
      assert chain[..0] == [];
    }
  }

  // The next item comes before what is behind it.
  lemma StepFrame(f: Frame)
    requires InRange(f)
    ensures f.item + 1 < |f.kids| ==>
      Preorder(f.kids[f.item + 1..]) == Under(f.kids[f.item + 1]) + Preorder(f.kids[f.item + 2..])
    ensures f.item + 1 == |f.kids| ==> Preorder(f.kids[f.item + 1..]) == []
  {
    if f.item + 1 < |f.kids| {
      var k := f.kids[f.item + 1..];
      assert k[0] == f.kids[f.item + 1] && k[1..] == f.kids[f.item + 2..];
    }
  }

  lemma StartAhead(kids: seq<Tree>)
    requires kids != []
    ensures Under(kids[0]) + Ahead([Frame(kids, 0)]) == Preorder(kids)
  {
    var chain := [Frame(kids, 0)];
    assert chain[..0] == [];
  }

  // What a client has still to see.
  ghost function StillToSee(r: Recurs): seq<nat>
    requires r.Valid()
    reads r
  {
    if r.Active() then Under(r.Current()) + Ahead(r.chain) else []
  }

  // Visiting an item leaves what it holds, if it is a field, and what comes behind.
  lemma Visited(done: seq<nat>, t: Tree, rest: seq<nat>, all: seq<nat>)
    requires done + (Under(t) + rest) == all
    ensures (done + [t.id]) + ((if t.field then Preorder(t.kids) else []) + rest) == all
    ensures |done| < |all|
  {
    hide Preorder;
    assert Under(t) + rest == [t.id] + ((if t.field then Preorder(t.kids) else []) + rest);
  }

  /** A client that visits, pushes into fields and steps on sees every item of the
      tree once, in preorder, and comes to an end. */
  method Drive(root: Tree) returns (visited: seq<nat>)
    ensures visited == Preorder(root.kids)
  {
    hide Preorder, Under, Ahead;
    var r := new Recurs(root);
    visited := [];
    StartToSee(root, r);
    while !r.IsEoRecurs()
      invariant r.Valid() && (r.Active() || r.IsEoRecurs()) && fresh(r)
      invariant visited + StillToSee(r) == Preorder(root.kids)
      decreases |Preorder(root.kids)| - |visited|
    {
      var item := r.Current();
      Visited(visited, item, Ahead(r.chain), Preorder(root.kids));
      visited := visited + [item.id];
      ghost var left := (if item.field then Preorder(item.kids) else []) + Ahead(r.chain);
      if item.field {
        r.Push();
      }
      assert left == Ahead(r.chain);
      r.Next();
    }
  }

  lemma StartToSee(root: Tree, r: Recurs)
    requires r.Valid() && r.chain == [Goto(Frame(root.kids, 0), 0)]
    ensures StillToSee(r) == Preorder(root.kids) && (r.Active() || r.IsEoRecurs())
  {
    if root.kids != [] {
      StartAhead(root.kids);
    }
  }
}
