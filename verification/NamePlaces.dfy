/** Where a sorted insertion puts a name, said by counting: how many names there are less
    than it, how many more, and which places a search by halves looks at. */
module NamePlaces {
  import opened Naming
  import opened Sequences

  // The first l names are less than x, those from u on are more, those between alike.
  ghost predicate Parted(q: seq<Name>, x: Name, l: nat, u: nat) {
    && l <= u <= |q|
    && forall i :: 0 <= i < |q| ==> (Less(q[i], x) <==> i < l) && (Less(x, q[i]) <==> u <= i)
  }

  // k is in the middle of [lo, hi], or of a half of it, as long as more than two are left.
  predicate Middle(lo: nat, hi: nat, k: nat)
    decreases if lo <= hi then hi - lo else 0
  {
    lo + 1 < hi &&
    var mid := (lo + hi) / 2;
    k == mid || (k < mid && Middle(lo, mid - 1, k)) || (mid < k && Middle(mid + 1, hi, k))
  }

  // Halving [lo, hi] may leave [a, b].
  predicate LeftOver(lo: nat, hi: nat, a: nat, b: nat)
    decreases if lo <= hi then hi - lo else 0
  {
    if hi <= lo + 1 then a == lo && b == hi
    else
      var mid := (lo + hi) / 2;
      LeftOver(lo, mid - 1, a, b) || LeftOver(mid + 1, hi, a, b)
  }

  lemma {:induction false} LeftOverInside(lo: nat, hi: nat, a: nat, b: nat)
    requires lo <= hi && LeftOver(lo, hi, a, b)
    ensures lo <= a <= b <= hi
    decreases hi - lo
  {
    if lo + 1 < hi {
      var mid := (lo + hi) / 2;
      if LeftOver(lo, mid - 1, a, b) {
        LeftOverInside(lo, mid - 1, a, b);
      } else {
        LeftOverInside(mid + 1, hi, a, b);
      }
    }
  }

  // Where the search for x stops.
  lemma {:induction false} ProbeEnds(q: seq<Name>, x: Name, l: nat, u: nat, lo: nat, hi: nat)
    requires Parted(q, x, l, u) && lo <= hi < |q| && lo <= l <= hi + 1
    ensures var (a, b) := Probe(q, x, lo, hi);
      && a <= l <= b + 1 && (b + 1 == l <==> l == hi + 1 || Middle(lo, hi, l))
      && (LeftOver(lo, hi, l, l + 1) <==> a == l && b == l + 1)
    decreases hi - lo
  {
    hide Less, Probe, Parted, Middle, LeftOver;
    ProbeTurn(q, x, lo, hi);
    HalvesTurn(lo, hi, l);
    if lo + 1 < hi {
      var mid := (lo + hi) / 2;
      PartedAt(q, x, l, u, mid);
      if mid < l {
        ProbeEnds(q, x, l, u, mid + 1, hi);
      } else {
        ProbeEnds(q, x, l, u, lo, mid - 1);
      }
    }
  }

  lemma PartedAt(q: seq<Name>, x: Name, l: nat, u: nat, i: nat)
    requires Parted(q, x, l, u) && i < |q|
    ensures (Less(q[i], x) <==> i < l) && (Less(x, q[i]) <==> u <= i)
  {
    hide Less;
  }

  // One turn of halving, as l sees it.
  lemma HalvesTurn(lo: nat, hi: nat, l: nat)
    requires lo <= hi && lo <= l
    ensures hi <= lo + 1 ==> !Middle(lo, hi, l) && (LeftOver(lo, hi, l, l + 1) <==> l == lo && l + 1 == hi)
    ensures lo + 1 < hi ==> var mid := (lo + hi) / 2;
      && (mid < l ==> (Middle(lo, hi, l) <==> Middle(mid + 1, hi, l)))
      && (mid < l ==> (LeftOver(lo, hi, l, l + 1) <==> LeftOver(mid + 1, hi, l, l + 1)))
      && (l == mid ==> Middle(lo, hi, l) && !LeftOver(lo, hi, l, l + 1))
      && (l < mid ==> (Middle(lo, hi, l) <==> Middle(lo, mid - 1, l)))
      && (l < mid ==> (LeftOver(lo, hi, l, l + 1) <==> LeftOver(lo, mid - 1, l, l + 1)))
  {
    if lo + 1 < hi {
      var mid := (lo + hi) / 2;
      if LeftOver(lo, mid - 1, l, l + 1) {
        LeftOverInside(lo, mid - 1, l, l + 1);
      }
      if LeftOver(mid + 1, hi, l, l + 1) {
        LeftOverInside(mid + 1, hi, l, l + 1);
      }
    }
  }

  /** The place among n names of one that l are less than and all from u on are more than.
      With none alike, between them.  Otherwise behind the alike names if nothing follows
      them; in front of them if the first is one of the places looked at; behind it if it
      is the only one and left over with the name that follows; else nowhere. */
  function PlaceByCount(n: nat, l: nat, u: nat): Spot {
    if l == u || u == n then At(u)
    else if n > 0 && Middle(0, n - 1, l) then At(l)
    else if n > 0 && u == l + 1 && LeftOver(0, n - 1, l, u) then At(u)
    else Nowhere
  }

  lemma PlaceExactly(q: seq<Name>, x: Name, l: nat, u: nat)
    requires Parted(q, x, l, u)
    ensures Place(q, x) == PlaceByCount(|q|, l, u)
  {
    hide Less, Middle, LeftOver;
    if q != [] && !Less(x, q[0]) && Less(x, q[|q| - 1]) {
      ProbeEnds(q, x, l, u, 0, |q| - 1);
    }
  }

  /** However they part, at most one place is meant. */
  lemma PlacedAsCounted(q: seq<Name>, x: Name)
    ensures forall l: nat, u: nat :: Parted(q, x, l, u) ==> Place(q, x) == PlaceByCount(|q|, l, u)
  {
    forall l: nat, u: nat | Parted(q, x, l, u)
      ensures Place(q, x) == PlaceByCount(|q|, l, u)
    {
      PlaceExactly(q, x, l, u);
    }
  }

  // ---- when the names part ------------------------------------------------------------------

  // Names alike to x are x with something behind it.
  ghost predicate OnlyLonger(q: seq<Name>, x: Name) {
    forall i :: 0 <= i < |q| && Alike(q[i], x) ==> Begins(x, q[i])
  }

  lemma LessInFront(q: seq<Name>, x: Name, i: nat, j: nat)
    requires InOrder(q) && (OnlyLonger(q, x) || AllUnlike(q)) && i < j < |q| && Less(q[j], x)
    ensures Less(q[i], x)
  {
    hide Less, Begins;
    AlikeExact(q[i], x);
    if Less(x, q[i]) {
      LessOn(q[j], x, q[i]);
    } else if Begins(x, q[i]) {
      LessBeyond(q[j], x, q[i]);
    } else if Begins(q[i], x) {
      assert !Alike(q[i], q[j]);
      LessBeyond(q[j], q[i], x);
      LessOneWay(q[j], x);
    }
  }

  lemma MoreBehind(q: seq<Name>, x: Name, i: nat, j: nat)
    requires InOrder(q) && (OnlyLonger(q, x) || AllUnlike(q)) && i < j < |q| && Less(x, q[i])
    ensures Less(x, q[j])
  {
    hide Less, Begins;
    AlikeExact(q[j], x);
    if Less(q[j], x) {
      LessOn(q[j], x, q[i]);
    } else if Begins(x, q[j]) {
      LessBeyond(q[i], x, q[j]);
    } else if Begins(q[j], x) {
      assert !Alike(q[i], q[j]);
      LessBeyond(q[i], q[j], x);
      LessOneWay(x, q[i]);
    }
  }

  /** In a collection in order the names part, if none there begins another or none is a
      shorter beginning of x. */
  lemma {:induction false} OrderParts(q: seq<Name>, x: Name) returns (l: nat, u: nat)
    requires InOrder(q) && (OnlyLonger(q, x) || AllUnlike(q))
    ensures Parted(q, x, l, u)
    decreases |q|
  {
    hide Less, Begins, Alike;
    if q == [] {
      l, u := 0, 0;
    } else {
      var n := |q| - 1;
      FrontOrder(q, x, n);
      l, u := OrderParts(q[..n], x);
      FrontParts(q, x, l, u);
      if Less(q[n], x) {
        LessOneWay(q[n], x);
        l, u := n + 1, n + 1;
      } else if !Less(x, q[n]) {
        u := n + 1;
      }
    }
  }

  lemma FrontOrder(q: seq<Name>, x: Name, n: nat)
    requires InOrder(q) && (OnlyLonger(q, x) || AllUnlike(q)) && n <= |q|
    ensures InOrder(q[..n]) && (OnlyLonger(q[..n], x) || AllUnlike(q[..n]))
  {
    hide Less, Begins, Alike;
  }

  // What the last name says of those in front of it.
  lemma FrontParts(q: seq<Name>, x: Name, l: nat, u: nat)
    requires InOrder(q) && (OnlyLonger(q, x) || AllUnlike(q)) && q != [] && Parted(q[..|q| - 1], x, l, u)
    ensures Less(q[|q| - 1], x) ==> l == u == |q| - 1
    ensures !Less(x, q[|q| - 1]) ==> u == |q| - 1
  {
    hide InOrder, OnlyLonger, AllUnlike, Less;
    var n := |q| - 1;
    if n > 0 {
      assert q[..n][n - 1] == q[n - 1];
      if Less(x, q[n - 1]) {
        MoreBehind(q, x, n - 1, n);
      }
      if Less(q[n], x) {
        LessInFront(q, x, n - 1, n);
        LessOneWay(q[n], x);
      }
    }
  }

  // ---- any collection in order ---------------------------------------------------------------

  /** What stands next to the place: nothing more in front of it, nothing less behind it,
      and inside not two names that are both alike. */
  lemma PlaceNeighbours(q: seq<Name>, x: Name)
    requires InOrder(q) && Place(q, x).At?
    ensures var k := Place(q, x).k;
      && (0 < k ==> !Less(x, q[k - 1])) && (k < |q| ==> !Less(q[k], x))
      && (k == 0 < |q| ==> Less(x, q[0])) && (0 < k < |q| ==> Less(q[k - 1], x) || Less(x, q[k]))
  {
    hide Less, InOrder;
    var k := Place(q, x).k;
    if q == [] {
    } else if Less(x, q[0]) {
      LessOneWay(x, q[0]);
    } else if Less(x, q[|q| - 1]) {
      LessOneWay(x, q[|q| - 1]);
      var (lo, hi) := Probe(q, x, 0, |q| - 1);
      ProbeFrom(q, x, 0, |q| - 1);
      if k < |q| && Less(x, q[k]) {
        LessOneWay(x, q[k]);
      }
      if 0 < k && Less(q[k - 1], x) {
        LessOneWay(q[k - 1], x);
      }
    }
  }

  // The name in front of where the search stops is less, if it is inside; the one behind
  // is not.
  lemma {:induction false} ProbeFrom(q: seq<Name>, x: Name, lo: nat, hi: nat)
    requires lo <= hi < |q|
    ensures var (a, b) := Probe(q, x, lo, hi);
      (lo < a ==> Less(q[a - 1], x)) && (b < hi ==> !Less(q[b + 1], x))
    decreases hi - lo
  {
    hide Less, Probe;
    ProbeTurn(q, x, lo, hi);
    if lo + 1 < hi {
      var mid := (lo + hi) / 2;
      if Less(q[mid], x) {
        ProbeFrom(q, x, mid + 1, hi);
      } else {
        ProbeFrom(q, x, lo, mid - 1);
      }
    }
  }

  /** Of two names, the lower one alike to x and the upper one more, x goes between. */
  lemma BetweenTwo(a: Name, b: Name, x: Name)
    requires Alike(a, x) && Less(x, b)
    ensures Place([a, b], x) == At(1)
  {
    hide Less;
    LessOneWay(x, b);
    PlaceExactly([a, b], x, 0, 1);
    assert LeftOver(0, 1, 0, 1) && !Middle(0, 1, 0);
  }

  /** "a", "b" and then "ab" are filed "a", "ab", "b". */
  lemma ExtendedGoesBehind()
    ensures Filed([['a' as nat], ['b' as nat], ['a' as nat, 'b' as nat]]) ==
      Kept([['a' as nat], ['a' as nat, 'b' as nat], ['b' as nat]])
  {
    hide Filed, Less;
    var a: Name, b: Name, ab: Name := ['a' as nat], ['b' as nat], ['a' as nat, 'b' as nat];
    LettersCompare();
    FiledBehind([], a);
    assert [] + [a] == [a];
    FiledBehind([a], b);
    assert [a] + [b] == [a, b];
    BetweenTwo(a, b, ab);
    FiledNext([a, b], [a, b], ab);
    assert [a, b] + [ab] == [a, b, ab] && Inserted([a, b], 1, ab) == [a, ab, b];
  }

  lemma LettersCompare()
    ensures var a: Name, b: Name, ab: Name := ['a' as nat], ['b' as nat], ['a' as nat, 'b' as nat];
      Alike(a, ab) && Less(ab, b) && !Less(b, a)
    ensures Filed([]) == Kept([])
  {
  }
}
