/** Names as the code orders them, and the place a sorted insertion finds for one.
    A name is the sequence of its characters folded to one case, and two names are
    compared over the length of the shorter. */
module Naming {
  import opened Sequences

  type Name = seq<nat>

  predicate Less(a: Name, b: Name) {
    a != [] && b != [] && (a[0] < b[0] || (a[0] == b[0] && Less(a[1..], b[1..])))
  }

  // The code's operator >, which holds of names that compare alike too.
  predicate NotLess(a: Name, b: Name) { !Less(a, b) }

  // Neither is less than the other.
  predicate Alike(a: Name, b: Name) { !Less(a, b) && !Less(b, a) }

  predicate Begins(a: Name, b: Name) { |a| <= |b| && a == b[..|a|] }

  lemma {:induction false} BeginsStep(a: Name, b: Name)
    requires a != [] && b != []
    ensures Begins(a, b) <==> a[0] == b[0] && Begins(a[1..], b[1..])
  {
    if |a| <= |b| {
      assert b[..|a|] == [b[0]] + b[1..][..|a| - 1];
      assert a == [a[0]] + a[1..];
    }
  }

  /** Names compare alike exactly when one begins the other, so one name may be alike
      to two that differ. */
  lemma {:induction false} AlikeExact(a: Name, b: Name)
    ensures Alike(a, b) <==> Begins(a, b) || Begins(b, a)
  {
    if a != [] && b != [] {
      BeginsStep(a, b);
      BeginsStep(b, a);
      AlikeExact(a[1..], b[1..]);
    }
  }

  lemma {:induction false} LessOneWay(a: Name, b: Name)
    requires Less(a, b)
    ensures !Less(b, a)
  {
    if a[0] == b[0] {
      LessOneWay(a[1..], b[1..]);
    }
  }

  lemma {:induction false} LessOn(a: Name, b: Name, c: Name)
    requires Less(a, b) && Less(b, c)
    ensures Less(a, c)
  {
    if a[0] == b[0] == c[0] {
      LessOn(a[1..], b[1..], c[1..]);
    }
  }

  /** One name is less than another exactly when at the first place where they differ, if
      that is within both, it has the lower character. */
  lemma {:induction false} LessExact(a: Name, b: Name)
    ensures Less(a, b) <==> exists i :: 0 <= i < |a| && i < |b| && a[..i] == b[..i] && a[i] < b[i]
  {
    if a != [] && b != [] {
      LessExact(a[1..], b[1..]);
      if Less(a, b) {
        if a[0] == b[0] {
          var i :| 0 <= i < |a| - 1 && i < |b| - 1 && a[1..][..i] == b[1..][..i] && a[1..][i] < b[1..][i];
          assert a[..i + 1] == [a[0]] + a[1..][..i] && b[..i + 1] == [b[0]] + b[1..][..i];
          assert a[i + 1] < b[i + 1];
        } else {
          assert a[..0] == b[..0] && a[0] < b[0];
        }
      }
      if i :| 0 <= i < |a| && i < |b| && a[..i] == b[..i] && a[i] < b[i] {
        if i > 0 {
          assert a[0] == a[..i][0] && b[0] == b[..i][0];
          assert a[1..][..i - 1] == a[..i][1..] && b[1..][..i - 1] == b[..i][1..];
          assert a[1..][i - 1] < b[1..][i - 1];
        }
      }
    }
  }

  // What is less or more than a name is so for every name it begins.
  lemma {:induction false} LessBeyond(a: Name, b: Name, c: Name)
    requires Begins(b, c)
    ensures Less(a, b) ==> Less(a, c)
    ensures Less(b, a) ==> Less(c, a)
  {
    if a != [] && b != [] {
      BeginsStep(b, c);
      if a[0] == b[0] {
        LessBeyond(a[1..], b[1..], c[1..]);
      }
    }
  }

  // ---- order -----------------------------------------------------------------------

  // No name is less than one before it.
  ghost predicate InOrder(q: seq<Name>) {
    forall i, j :: 0 <= i < j < |q| ==> !Less(q[j], q[i])
  }

  // No name is alike to x.
  ghost predicate Unlike(q: seq<Name>, x: Name) {
    forall i :: 0 <= i < |q| ==> !Alike(q[i], x)
  }

  // ---- the place ---------------------------------------------------------------------

  /** The two neighbouring places, or one, at which the binary search for x stops. */
  function Probe(q: seq<Name>, x: Name, lo: nat, hi: nat): (r: (nat, nat))
    requires lo <= hi < |q|
    ensures lo <= r.0 <= r.1 <= r.0 + 1 && r.1 <= hi
    decreases hi - lo
  {
    if hi <= lo + 1 then (lo, hi)
    else
      var mid := (lo + hi) / 2;
      if Less(q[mid], x) then Probe(q, x, mid + 1, hi) else Probe(q, x, lo, mid - 1)
  }

  // One turn of the search, and its end.
  lemma ProbeTurn(q: seq<Name>, x: Name, lo: nat, hi: nat)
    requires lo <= hi < |q|
    ensures hi <= lo + 1 ==> Probe(q, x, lo, hi) == (lo, hi)
    ensures lo + 1 < hi ==> var mid := (lo + hi) / 2;
      Probe(q, x, lo, hi) == if Less(q[mid], x) then Probe(q, x, mid + 1, hi) else Probe(q, x, lo, mid - 1)
  {
    hide Less;
  }

  datatype Spot = At(k: nat) | Nowhere

  /** Where sorted insertion puts x among q: in front, behind, or where the binary search
      says, which may be nowhere. */
  function Place(q: seq<Name>, x: Name): (r: Spot)
    ensures r.At? ==> r.k <= |q|
  {
    if q == [] || Less(x, q[0]) then At(0)
    else if !Less(x, q[|q| - 1]) then At(|q|)
    else
      var (lo, hi) := Probe(q, x, 0, |q| - 1);
      Settled(q, x, lo, hi)
  }

  // In front of lo, in front of hi, behind hi, or nowhere.
  function Settled(q: seq<Name>, x: Name, lo: nat, hi: nat): (r: Spot)
    requires lo <= hi < |q|
    ensures r.At? ==> r.k <= |q|
  {
    if Less(x, q[lo]) then At(lo)
    else if Less(x, q[hi]) then At(hi)
    else if Less(q[hi], x) then At(hi + 1)
    else Nowhere
  }

  // None of the first k names is more than x, none from the k-th on is less.
  ghost predicate Below(q: seq<Name>, x: Name, k: nat) {
    forall i :: 0 <= i < k && i < |q| ==> !Less(x, q[i])
  }

  ghost predicate Above(q: seq<Name>, x: Name, k: nat) {
    forall i :: k <= i < |q| ==> !Less(q[i], x)
  }

  // No name up to where the search stops is more than x, and the one past it, if it is
  // not past the given end, is not less.
  lemma {:induction false} ProbeBounds(q: seq<Name>, x: Name, lo: nat, hi: nat)
    requires InOrder(q) && lo <= hi < |q| && Below(q, x, lo)
    ensures var r := Probe(q, x, lo, hi); Below(q, x, r.0) && (r.1 < hi ==> !Less(q[r.1 + 1], x))
    decreases hi - lo
  {
    hide InOrder, Below, Less;
    if hi > lo + 1 {
      var mid := (lo + hi) / 2;
      if Less(q[mid], x) {
        NoneMore(q, x, mid);
        ProbeBounds(q, x, mid + 1, hi);
      } else {
        ProbeBounds(q, x, lo, mid - 1);
      }
    }
  }

  lemma NoneMore(q: seq<Name>, x: Name, mid: nat)
    requires InOrder(q) && mid < |q| && Less(q[mid], x)
    ensures Below(q, x, mid + 1)
  {
    forall i | 0 <= i <= mid
      ensures !Less(x, q[i])
    {
      LessOneWay(q[mid], x);
      if Less(x, q[i]) {
        LessOn(q[mid], x, q[i]);
      }
    }
  }

  lemma NoneLess(q: seq<Name>, x: Name, mid: nat)
    requires InOrder(q) && mid < |q| && Less(x, q[mid])
    ensures Above(q, x, mid)
  {
    forall i | mid <= i < |q|
      ensures !Less(q[i], x)
    {
      LessOneWay(x, q[mid]);
      if Less(q[i], x) {
        LessOn(q[i], x, q[mid]);
      }
    }
  }

  /** Putting x at k passes over a name that is ordered against it, behind the place or in
      front of the end, because the name met there, which begins x, compares alike. */
  ghost predicate Overtakes(q: seq<Name>, x: Name, k: nat)
    requires k <= |q|
  {
    || (k < |q| && Begins(q[k], x) && exists i :: k < i < |q| && Less(q[i], x))
    || (0 < k == |q| && Begins(q[k - 1], x) && exists i :: 0 <= i < |q| && Less(x, q[i]))
  }

  lemma BehindEnd(q: seq<Name>, x: Name)
    requires InOrder(q) && q != [] && !Less(x, q[|q| - 1]) && !Overtakes(q, x, |q|)
    ensures Below(q, x, |q|)
  {
    var e := q[|q| - 1];
    AlikeExact(e, x);
    if Less(e, x) {
      NoneMore(q, x, |q| - 1);
    } else if !Begins(e, x) {
      forall i | 0 <= i < |q|
        ensures !Less(x, q[i])
      {
        LessBeyond(q[i], x, e);
      }
    }
  }

  lemma InFrontOf(q: seq<Name>, x: Name, k: nat)
    requires InOrder(q) && k < |q| && !Less(q[k], x) && !Overtakes(q, x, k)
    ensures Above(q, x, k)
  {
    AlikeExact(q[k], x);
    if Less(x, q[k]) {
      NoneLess(q, x, k);
    } else if !Begins(q[k], x) {
      forall i | k <= i < |q|
        ensures !Less(q[i], x)
      {
        LessBeyond(q[i], x, q[k]);
      }
    }
  }

  // Unless it overtakes one, x is put behind no name that is more and in front of none
  // that is less.
  lemma PlaceParts(q: seq<Name>, x: Name)
    requires InOrder(q) && Place(q, x).At? && !Overtakes(q, x, Place(q, x).k)
    ensures Below(q, x, Place(q, x).k) && Above(q, x, Place(q, x).k)
  {
    if q == [] {
    } else if Less(x, q[0]) {
      NoneLess(q, x, 0);
    } else if !Less(x, q[|q| - 1]) {
      BehindEnd(q, x);
    } else {
      PlaceInside(q, x);
    }
  }

  lemma PlaceInside(q: seq<Name>, x: Name)
    requires InOrder(q) && Place(q, x).At? && !Overtakes(q, x, Place(q, x).k)
    requires q != [] && !Less(x, q[0]) && Less(x, q[|q| - 1])
    ensures Below(q, x, Place(q, x).k) && Above(q, x, Place(q, x).k)
  {
    hide Overtakes, InOrder, Less;
    var (lo, hi) := Probe(q, x, 0, |q| - 1);
    assert Below(q, x, 0);
    ProbeBounds(q, x, 0, |q| - 1);
    if Less(x, q[lo]) {
      NoneLess(q, x, lo);
    } else if Less(x, q[hi]) {
      NoneLess(q, x, hi);
    } else {
      NoneMore(q, x, hi);
      LessOneWay(q[hi], x);
      InFrontOf(q, x, hi + 1);
    }
  }

  /** Sorted insertion keeps a collection in order exactly when the name overtakes none. */
  lemma PlaceKeeps(q: seq<Name>, x: Name)
    requires InOrder(q) && Place(q, x).At?
    ensures InOrder(Inserted(q, Place(q, x).k, x)) <==> !Overtakes(q, x, Place(q, x).k)
  {
    hide Place, Less, Begins;
    var k := Place(q, x).k;
    var r := Inserted(q, k, x);
    assert |r| == |q| + 1;
    forall i | 0 <= i < |r|
      ensures r[i] == if i < k then q[i] else if i == k then x else q[i - 1]
    {
      InsertedAt(q, k, x, i);
    }
    assert r[k] == x;
    if !Overtakes(q, x, k) {
      PlaceParts(q, x);
    } else if k < |q| {
      var i :| k < i < |q| && Less(q[i], x);
      assert r[i + 1] == q[i];
    } else {
      var i :| 0 <= i < |q| && Less(x, q[i]);
      assert r[i] == q[i];
    }
  }

  /** A name that no other begins or is begun by gets a place, above all that are less
      and below all that are more. */
  lemma UnlikePlaced(q: seq<Name>, x: Name)
    requires InOrder(q) && Unlike(q, x)
    ensures Place(q, x).At? && InOrder(Inserted(q, Place(q, x).k, x))
    ensures forall i :: 0 <= i < Place(q, x).k ==> Less(q[i], x)
    ensures forall i :: Place(q, x).k <= i < |q| ==> Less(x, q[i])
  {
    hide Place, Less, Begins;
    UnlikeFound(q, x);
    var k := Place(q, x).k;
    if k < |q| { AlikeExact(q[k], x); }
    if k > 0 { AlikeExact(q[k - 1], x); }
    PlaceKeeps(q, x);
    PlaceParts(q, x);
  }

  lemma UnlikeFound(q: seq<Name>, x: Name)
    requires Unlike(q, x)
    ensures Place(q, x).At?
  {
  }

  /** In a collection in order, a name finds no place exactly when it lies within the ends
      and begins the upper name the search stops at, or is begun by it and not less than
      the lower one. */
  lemma NowhereExact(q: seq<Name>, x: Name)
    requires InOrder(q)
    ensures Place(q, x).Nowhere? <==>
      && q != [] && !Less(x, q[0]) && Less(x, q[|q| - 1])
      && var (lo, hi) := Probe(q, x, 0, |q| - 1); Begins(x, q[hi]) || (Begins(q[hi], x) && !Less(x, q[lo]))
  {
    hide Less, Begins;
    if q != [] {
      var (lo, hi) := Probe(q, x, 0, |q| - 1);
      AlikeExact(q[hi], x);
      if Begins(x, q[hi]) && Less(x, q[lo]) {
        LessBeyond(q[lo], x, q[hi]);
      }
    }
  }

  /** Where no name there begins another: exactly when it lies within the ends, and it and
      the upper name the search stops at begin one the other. */
  lemma NowhereAmongUnlike(q: seq<Name>, x: Name)
    requires InOrder(q) && AllUnlike(q)
    ensures Place(q, x).Nowhere? <==>
      && q != [] && !Less(x, q[0]) && Less(x, q[|q| - 1])
      && var hi := Probe(q, x, 0, |q| - 1).1; Begins(x, q[hi]) || Begins(q[hi], x)
  {
    hide Less, Begins, Place;
    NowhereExact(q, x);
    if q != [] {
      var (lo, hi) := Probe(q, x, 0, |q| - 1);
      AlikeExact(q[hi], x);
      if Begins(q[hi], x) && Less(x, q[lo]) {
        LessOneWay(x, q[lo]);
        LessBeyond(q[lo], q[hi], x);
        assert lo == hi || !Alike(q[lo], q[hi]);
      }
    }
  }

  // ---- whole collections ----------------------------------------------------------------

  datatype Filing = Kept(q: seq<Name>) | Lost

  /** The names of a collection made by sorted insertion of xs, one after the other. */
  function Filed(xs: seq<Name>): Filing {
    if xs == [] then Kept([])
    else
      var x, before := xs[|xs| - 1], Filed(xs[..|xs| - 1]);
      if before.Lost? then Lost
      else
        match Place(before.q, x)
        case At(k) => Kept(Inserted(before.q, k, x))
        case Nowhere => Lost
  }

  ghost predicate AllUnlike(xs: seq<Name>) {
    forall i, j :: 0 <= i < j < |xs| ==> !Alike(xs[i], xs[j])
  }

  // One more name filed, and none alike to those there.
  lemma FiledOneMore(ys: seq<Name>, q: seq<Name>, x: Name)
    requires Filed(ys) == Kept(q) && InOrder(q) && Unlike(q, x)
    ensures var f := Filed(ys + [x]); f.Kept? && InOrder(f.q) && multiset(f.q) == multiset(q) + multiset{x}
  {
    hide Place, Less, Alike, Unlike, InOrder;
    var xs := ys + [x];
    assert xs[..|xs| - 1] == ys;
    UnlikePlaced(q, x);
    InsertedContents(q, Place(q, x).k, x);
  }

  lemma InsertedContents(q: seq<Name>, k: nat, x: Name)
    requires k <= |q|
    ensures multiset(Inserted(q, k, x)) == multiset(q) + multiset{x}
  {
    assert q == q[..k] + q[k..];
  }

  lemma UnlikeThose(ys: seq<Name>, q: seq<Name>, x: Name)
    requires AllUnlike(ys + [x]) && multiset(q) == multiset(ys)
    ensures Unlike(q, x)
  {
    hide Alike;
    forall i | 0 <= i < |q|
      ensures !Alike(q[i], x)
    {
      assert q[i] in multiset(ys);
      var j :| 0 <= j < |ys| && ys[j] == q[i];
      assert !Alike((ys + [x])[j], (ys + [x])[|ys|]);
    }
  }

  /** Names none of which begins another are sorted, whatever order they come in. */
  lemma {:induction false} FiledSorts(xs: seq<Name>)
    requires AllUnlike(xs)
    ensures Filed(xs).Kept? && InOrder(Filed(xs).q) && multiset(Filed(xs).q) == multiset(xs)
  {
    hide Place, Alike, Less, Inserted;
    if xs != [] {
      var x, ys := xs[|xs| - 1], xs[..|xs| - 1];
      assert xs == ys + [x];
      FiledSorts(ys);
      UnlikeThose(ys, Filed(ys).q, x);
      FiledOneMore(ys, Filed(ys).q, x);
    }
  }

  lemma FiledNext(ys: seq<Name>, q: seq<Name>, x: Name)
    requires Filed(ys) == Kept(q)
    ensures Filed(ys + [x]) == match Place(q, x) case At(k) => Kept(Inserted(q, k, x)) case Nowhere => Lost
  {
    hide Place, Inserted;
    var xs := ys + [x];
    assert xs[..|xs| - 1] == ys;
  }

  // A name not less than the first and the last goes behind.
  lemma FiledBehind(ys: seq<Name>, x: Name)
    requires Filed(ys) == Kept(ys) && (ys != [] ==> !Less(x, ys[0]) && !Less(x, ys[|ys| - 1]))
    ensures Filed(ys + [x]) == Kept(ys + [x])
  {
    hide Less, Filed;
    FiledNext(ys, ys, x);
    assert Place(ys, x) == At(|ys|);
    assert Inserted(ys, |ys|, x) == ys + [x];
  }

  lemma FiledThree(a: Name, b: Name, c: Name)
    requires !Less(b, a) && !Less(c, a) && !Less(c, b)
    ensures Filed([a, b, c]) == Kept([a, b, c])
  {
    hide Less;
    FiledBehind([], a);
    assert [] + [a] == [a];
    FiledBehind([a], b);
    assert [a] + [b] == [a, b];
    FiledBehind([a, b], c);
    assert [a, b] + [c] == [a, b, c];
  }

  /** A name that begins one already there may find no place. */
  lemma FiledNowhere()
    ensures Filed([[1, 2], [3], [4], [1]]) == Lost
  {
    hide Filed;
    var q: seq<Name> := [[1, 2], [3], [4]];
    FiledThree(q[0], q[1], q[2]);
    assert Alike([1, 2], [1]) && Less([1], [3]) && Less([1], [4]);
    assert Probe(q, [1], 0, 2) == (0, 0);
    FiledNext(q, q, [1]);
    assert q + [[1]] == [[1, 2], [3], [4], [1]];
  }

  /** A name that extends another may end up behind one that is more. */
  lemma FiledDisorder()
    ensures Filed([[1], [2, 2], [2], [2, 1]]) == Kept([[1], [2, 2], [2], [2, 1]])
    ensures !InOrder([[1], [2, 2], [2], [2, 1]])
  {
    hide Filed;
    var q: seq<Name> := [[1], [2, 2], [2]];
    FiledThree(q[0], q[1], q[2]);
    FiledBehind(q, [2, 1]);
    var r := q + [[2, 1]];
    assert r == [[1], [2, 2], [2], [2, 1]];
    assert Less(r[3], r[1]);
  }
}
