/** The wildcard matcher: '*' stands for any run of characters, '?' for any one but
    '.', '#' for a whole run of digits.  The loop backtracks to the last star only. */
module Wildcard {

  predicate IsDigit(c: char) { '0' <= c <= '9' }

  // The end of the run of digits that position j lies in.
  function RunEnd(t: string, j: nat): (e: nat)
    requires j <= |t|
    ensures j <= e <= |t|
    decreases |t| - j
  {
    if j < |t| && IsDigit(t[j]) then RunEnd(t, j + 1) else j
  }

  /** What a pattern from i on means for the text from j on. */
  predicate Matches(p: string, i: nat, t: string, j: nat)
    requires i <= |p| && j <= |t|
    decreases |p| - i, |t| - j
  {
    if i == |p| then j == |t|
    else if p[i] == '*' then Matches(p, i + 1, t, j) || (j < |t| && Matches(p, i, t, j + 1))
    else j < |t| && Accepts(p[i], t[j]) && Matches(p, i + 1, t, After(p[i], t, j))
  }

  // The pattern character c, not a star, takes text starting with d.
  predicate Accepts(c: char, d: char) {
    if c == '?' then d != '.' else if c == '#' then IsDigit(d) else c == d
  }

  // Where the text goes on after c took its share at j: all of a run of digits, or
  // one character.
  function After(c: char, t: string, j: nat): (e: nat)
    requires j < |t|
    ensures j <= e <= |t|
    ensures Accepts(c, t[j]) ==> j < e
  {
    if c == '#' then RunEnd(t, j) else j + 1
  }

  // ---- the meaning in pieces -----------------------------------------------------------

  // The pattern character c takes t from j to k: any stretch for a star, one character
  // other than '.' for '?', all of a run of digits for '#', itself otherwise.
  ghost predicate Piece(c: char, t: string, j: nat, k: nat) {
    && j <= k <= |t|
    && (c == '*' ||
        if c == '?' then k == j + 1 && t[j] != '.'
        else if c == '#' then
          && j < k && (forall x :: j <= x < k ==> '0' <= t[x] <= '9')
          && (k < |t| ==> !('0' <= t[k] <= '9'))
        else k == j + 1 && t[j] == c)
  }

  // The text from j on is cut into one piece for each character of the pattern from i on.
  ghost predicate CutFrom(p: string, i: nat, t: string, j: nat, cuts: seq<nat>)
    requires i <= |p|
  {
    && |cuts| == |p| - i + 1 && cuts[0] == j && cuts[|p| - i] == |t|
    && forall x :: 0 <= x < |p| - i ==> Piece(p[i + x], t, cuts[x], cuts[x + 1])
  }

  /** The text is cut into one piece for each character of the pattern. */
  ghost predicate Cut(p: string, t: string, cuts: seq<nat>) { CutFrom(p, 0, t, 0, cuts) }

  lemma {:induction false} RunEndIs(t: string, j: nat)
    requires j <= |t|
    ensures forall x :: j <= x < RunEnd(t, j) ==> IsDigit(t[x])
    ensures RunEnd(t, j) < |t| ==> !IsDigit(t[RunEnd(t, j)])
    decreases |t| - j
  {
    if j < |t| && IsDigit(t[j]) {
      RunEndIs(t, j + 1);
    }
  }

  // Other than for a star, where a piece ends is where the text goes on.
  lemma PieceEnds(c: char, t: string, j: nat, k: nat)
    requires c != '*' && j <= |t|
    ensures Piece(c, t, j, k) <==> j < |t| && Accepts(c, t[j]) && k == After(c, t, j)
  {
    RunEndIs(t, j);
    if c == '#' && Piece(c, t, j, k) {
      assert RunEnd(t, j) <= k;
    }
  }

  lemma CutTail(p: string, i: nat, t: string, j: nat, cuts: seq<nat>)
    requires i < |p| && cuts != []
    ensures CutFrom(p, i, t, j, cuts) <==>
      && |cuts| > 1 && cuts[0] == j && Piece(p[i], t, j, cuts[1]) && CutFrom(p, i + 1, t, cuts[1], cuts[1..])
  {
    hide Piece;
    if |cuts| == |p| - i + 1 {
      var d := cuts[1..];
      assert d[|p| - i - 1] == cuts[|p| - i];
      if CutFrom(p, i + 1, t, cuts[1], d) && Piece(p[i], t, cuts[0], cuts[1]) {
        forall x | 0 <= x < |p| - i
          ensures Piece(p[i + x], t, cuts[x], cuts[x + 1])
        {
          assert x > 0 ==> Piece(p[i + 1 + (x - 1)], t, d[x - 1], d[x]);
        }
      }
      if CutFrom(p, i, t, j, cuts) {
        forall x | 0 <= x < |p| - i - 1
          ensures Piece(p[i + 1 + x], t, d[x], d[x + 1])
        {
          assert Piece(p[i + (x + 1)], t, cuts[x + 1], cuts[x + 2]);
        }
      }
    }
  }

  lemma {:induction false} MatchIsCut(p: string, i: nat, t: string, j: nat) returns (cuts: seq<nat>)
    requires i <= |p| && j <= |t| && Matches(p, i, t, j)
    ensures CutFrom(p, i, t, j, cuts)
    decreases |p| - i
  {
    if i == |p| {
      cuts := [j];
    } else {
      var k := j;
      if p[i] == '*' {
        StarMeans(p, i, t, j);
        k :| j <= k <= |t| && Matches(p, i + 1, t, k);
      } else {
        k := After(p[i], t, j);
        PieceEnds(p[i], t, j, k);
      }
      var rest := MatchIsCut(p, i + 1, t, k);
      cuts := [j] + rest;
      assert cuts[1..] == rest;
      CutTail(p, i, t, j, cuts);
    }
  }

  lemma {:induction false} CutIsMatch(p: string, i: nat, t: string, j: nat, cuts: seq<nat>)
    requires i <= |p| && j <= |t| && CutFrom(p, i, t, j, cuts)
    ensures Matches(p, i, t, j)
    decreases |p| - i
  {
    if i < |p| {
      CutTail(p, i, t, j, cuts);
      CutIsMatch(p, i + 1, t, cuts[1], cuts[1..]);
      if p[i] == '*' {
        StarMeans(p, i, t, j);
      } else {
        PieceEnds(p[i], t, j, cuts[1]);
      }
    }
  }

  /** A text matches exactly when it can be cut into one piece for each character of the
      pattern. */
  lemma MatchesInPieces(p: string, t: string)
    ensures Matches(p, 0, t, 0) <==> exists cuts :: Cut(p, t, cuts)
  {
    if Matches(p, 0, t, 0) {
      var cuts := MatchIsCut(p, 0, t, 0);
      assert Cut(p, t, cuts);
    }
    if cuts :| Cut(p, t, cuts) {
      CutIsMatch(p, 0, t, 0, cuts);
    }
  }

  // ---- why the last star is enough -----------------------------------------------------

  // Where the star-free stretch [a, b) of the pattern ends when it starts at j, or
  // -1 if it does not match there.
  function Reach(p: string, a: nat, b: nat, t: string, j: nat): (r: int)
    requires a <= b <= |p| && j <= |t|
    ensures r <= |t|
    decreases b
  {
    if a == b then j
    else
      var r := Reach(p, a, b - 1, t, j);
      if 0 <= r < |t| && Accepts(p[b - 1], t[r]) then After(p[b - 1], t, r) else -1
  }

  lemma {:induction false} RunEndMonotone(t: string, j: nat, k: nat)
    requires j <= k < |t| && IsDigit(t[k])
    ensures RunEnd(t, j) <= RunEnd(t, k)
    decreases k - j
  {
    if j < k && IsDigit(t[j]) {
      RunEndMonotone(t, j + 1, k);
    }
  }

  /** Starting later ends no earlier, although '#' takes as much as it can. */
  lemma {:induction false} ReachMonotone(p: string, a: nat, b: nat, t: string, j: nat, k: nat)
    requires a <= b <= |p| && j <= k <= |t| && 0 <= Reach(p, a, b, t, j) && 0 <= Reach(p, a, b, t, k)
    ensures Reach(p, a, b, t, j) <= Reach(p, a, b, t, k)
    decreases b
  {
    if a < b {
      ReachMonotone(p, a, b - 1, t, j, k);
      if p[b - 1] == '#' {
        RunEndMonotone(t, Reach(p, a, b - 1, t, j), Reach(p, a, b - 1, t, k));
      }
    }
  }

  predicate NoStar(p: string, a: nat, b: nat)
    requires b <= |p|
  {
    forall x :: a <= x < b ==> p[x] != '*'
  }

  // A match goes through every star-free stretch.
  lemma {:induction false} MatchReaches(p: string, a: nat, b: nat, t: string, k: nat)
    requires a <= b <= |p| && k <= |t| && NoStar(p, a, b) && Matches(p, a, t, k)
    ensures 0 <= Reach(p, a, b, t, k) && Matches(p, b, t, Reach(p, a, b, t, k))
    decreases b
  {
    if a < b {
      MatchReaches(p, a, b - 1, t, k);
    }
  }

  // Behind a star a match further on is a match here.
  lemma {:induction false} StarAbsorbs(p: string, i: nat, t: string, j: nat, k: nat)
    requires i < |p| && p[i] == '*' && j <= k <= |t| && Matches(p, i, t, k)
    ensures Matches(p, i, t, j)
    decreases k - j
  {
    if j < k {
      StarAbsorbs(p, i, t, j + 1, k);
    }
  }

  // The stretch behind the last star matches from some position from k on.
  ghost predicate Later(p: string, a: nat, t: string, k: nat)
    requires a <= |p|
  {
    exists x: nat :: k <= x <= |t| && Matches(p, a, t, x)
  }

  lemma LaterNext(p: string, a: nat, t: string, k: nat)
    requires a <= |p| && k <= |t|
    ensures Later(p, a, t, k) <==> Matches(p, a, t, k) || Later(p, a, t, k + 1)
  {
    if Later(p, a, t, k) {
      var x: nat :| k <= x <= |t| && Matches(p, a, t, x);
    }
    if Later(p, a, t, k + 1) {
      var x: nat :| k + 1 <= x <= |t| && Matches(p, a, t, x);
      assert k <= x;
    }
  }

  lemma {:induction false} StarMeans(p: string, i: nat, t: string, j: nat)
    requires i < |p| && p[i] == '*' && j <= |t|
    ensures Matches(p, i, t, j) <==> Later(p, i + 1, t, j)
    decreases |t| - j
  {
    LaterNext(p, i + 1, t, j);
    if j < |t| {
      StarMeans(p, i, t, j + 1);
    }
  }

  /** At the next star, or at the end of the text, the chances the last star still
      had are worth nothing: whatever it could reach later is reached from here. */
  lemma LastStarSuffices(p: string, a: nat, i: nat, t: string, s: nat, j: nat)
    requires a <= i <= |p| && s <= j <= |t| && NoStar(p, a, i) && Reach(p, a, i, t, s) == j
    requires j == |t| || (i < |p| && p[i] == '*')
    requires Later(p, a, t, s + 1)
    ensures Matches(p, i, t, j)
  {
    var x: nat :| s + 1 <= x <= |t| && Matches(p, a, t, x);
    MatchReaches(p, a, i, t, x);
    ReachMonotone(p, a, i, t, s, x);
    if j < |t| {
      StarAbsorbs(p, i, t, j, Reach(p, a, i, t, x));
    }
  }

  lemma {:induction false} OnlyStars(p: string, i: nat, t: string)
    requires i <= |p|
    ensures Matches(p, i, t, |t|) <==> forall x :: i <= x < |p| ==> p[x] == '*'
    decreases |p| - i
  {
    if i < |p| && p[i] == '*' {
      OnlyStars(p, i + 1, t);
    }
  }

  // ---- the loop ----------------------------------------------------------------------------

  // What is left to find out: the match from here, or a later one behind the last
  // star, whose stretch so far runs from s to j.
  ghost predicate Pending(p: string, t: string, i: nat, j: nat, star: int, s: nat) {
    && i <= |p| && j <= |t|
    && (if star < 0 then Matches(p, 0, t, 0) == Matches(p, i, t, j)
        else
          && star <= i && s <= j && NoStar(p, star, i) && Reach(p, star, i, t, s) == j
          && (Matches(p, 0, t, 0) <==> Matches(p, i, t, j) || Later(p, star, t, s + 1)))
  }

  // Past the star at i: the stretch behind it starts here.
  lemma AtStar(p: string, t: string, i: nat, j: nat, star: int, s: nat)
    requires Pending(p, t, i, j, star, s) && i < |p| && p[i] == '*'
    ensures Pending(p, t, i + 1, j, i + 1, j)
  {
    StarMeans(p, i, t, j);
    LaterNext(p, i + 1, t, j);
    if star >= 0 && Later(p, star, t, s + 1) {
      LastStarSuffices(p, star, i, t, s, j);
    }
  }

  lemma AtMatch(p: string, t: string, i: nat, j: nat, star: int, s: nat)
    requires Pending(p, t, i, j, star, s) && i < |p| && j < |t| && p[i] != '*' && Accepts(p[i], t[j])
    ensures Pending(p, t, i + 1, After(p[i], t, j), star, s)
  {
  }

  // No match here: back to the last star, one character on.
  lemma AtFallback(p: string, t: string, i: nat, j: nat, star: int, s: nat)
    requires Pending(p, t, i, j, star, s) && j < |t| && !Matches(p, i, t, j)
    ensures star < 0 ==> !Matches(p, 0, t, 0)
    ensures star >= 0 ==> Pending(p, t, star, s + 1, star, s + 1)
  {
    if star >= 0 {
      LaterNext(p, star, t, s + 1);
    }
  }

  lemma AtEnd(p: string, t: string, i: nat, star: int, s: nat)
    requires Pending(p, t, i, |t|, star, s)
    ensures Matches(p, 0, t, 0) <==> forall x :: i <= x < |p| ==> p[x] == '*'
  {
    OnlyStars(p, i, t);
    if star >= 0 && Later(p, star, t, s + 1) {
      LastStarSuffices(p, star, i, t, s, |t|);
    }
  }

  // Behind a trailing star everything matches.
  lemma TrailingStar(p: string, t: string, j: nat, star: int, s: nat)
    requires 0 < |p| && p[|p| - 1] == '*' && Pending(p, t, |p| - 1, j, star, s)
    ensures Matches(p, 0, t, 0)
  {
    OnlyStars(p, |p| - 1, t);
    StarAbsorbs(p, |p| - 1, t, j, |t|);
  }

  /** Greedy matching with one star to go back to finds exactly the matches there are. */
  method Match(pattern: string, text: string) returns (found: bool)
    ensures found == Matches(pattern, 0, text, 0)
    ensures found <==> exists cuts :: Cut(pattern, text, cuts)
  {
    hide Matches, Pending, Cut;
    MatchesInPieces(pattern, text);
    var i, j, starPattern, starText := 0, 0, -1, 0;
    assert Pending(pattern, text, 0, 0, -1, 0) by { PendingStart(pattern, text); }
    while j < |text|
      invariant i <= |pattern| && j <= |text| && starPattern <= i && 0 <= starText <= j
      invariant Pending(pattern, text, i, j, starPattern, starText)
      decreases |text| - (if starPattern < 0 then -1 else starText), |pattern| - i
    {
      var fallback := false;
      if i < |pattern| && pattern[i] == '?' {
        if text[j] == '.' {
          fallback := true;
        } else {
          Step(pattern, text, i, j, starPattern, starText);
          i, j := i + 1, j + 1;
        }
      } else if i < |pattern| && pattern[i] == '*' {
        AtStar(pattern, text, i, j, starPattern, starText);
        if i + 1 == |pattern| {
          TrailingStar(pattern, text, j, starPattern, starText);
          return true;
        }
        i := i + 1;
        starPattern, starText := i, j;
      } else if i < |pattern| && pattern[i] == '#' {
        if !IsDigit(text[j]) {
          fallback := true;
        } else {
          Step(pattern, text, i, j, starPattern, starText);
          j := SkipDigits(text, j);
          i := i + 1;
        }
      } else if i < |pattern| && pattern[i] == text[j] {
        Step(pattern, text, i, j, starPattern, starText);
        i, j := i + 1, j + 1;
      } else {
        fallback := true;
      }
      if fallback {
        Misses(pattern, text, i, j);
        AtFallback(pattern, text, i, j, starPattern, starText);
        if starPattern < 0 {
          return false;
        }
        starText := starText + 1;
        i, j := starPattern, starText;
      }
    }
    AtEnd(pattern, text, i, starPattern, starText);
    ghost var rest := i;
    while i < |pattern| && pattern[i] == '*'
      invariant rest <= i <= |pattern| && forall x :: rest <= x < i ==> pattern[x] == '*'
    {
      i := i + 1;
    }
    found := i == |pattern|;
  }

  lemma PendingStart(p: string, t: string)
    ensures Pending(p, t, 0, 0, -1, 0)
  {
  }

  // The three ways a character is taken.
  lemma Step(p: string, t: string, i: nat, j: nat, star: int, s: nat)
    requires Pending(p, t, i, j, star, s) && i < |p| && j < |t| && p[i] != '*' && Accepts(p[i], t[j])
    ensures Pending(p, t, i + 1, if p[i] == '#' then RunEnd(t, j) else j + 1, star, s)
  {
    hide Matches;
    AtMatch(p, t, i, j, star, s);
  }

  lemma Misses(p: string, t: string, i: nat, j: nat)
    requires i <= |p| && j < |t| && (i == |p| || (p[i] != '*' && !Accepts(p[i], t[j])))
    ensures !Matches(p, i, t, j)
  {
  }

  // Past all digits from j on, of which there is one.
  method SkipDigits(text: string, j: nat) returns (e: nat)
    requires j < |text| && IsDigit(text[j])
    ensures e == RunEnd(text, j) && j < e
  {
    e := j + 1;
    while e < |text| && IsDigit(text[e])
      invariant j < e <= |text| && RunEnd(text, e) == RunEnd(text, j)
    {
      e := e + 1;
    }
  }
}
