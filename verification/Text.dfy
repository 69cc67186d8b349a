/** Text on its way into and out of a field: UTF-8 to wide characters, wide
    characters to UTF-16 units as bytes, and back.  wide says that a wide character
    is 32 bits; otherwise it is 16.  Section 3 and 4 of RFC 3629 and section 2 of
    RFC 2781. */
module Text {
  import opened Bytes

  const REPLACEMENT: nat := 0xFFFD

  predicate Surrogate(c: nat) { 0xD800 <= c <= 0xDFFF }

  predicate High(u: nat) { 0xD800 <= u <= 0xDBFF }

  predicate Low(u: nat) { 0xDC00 <= u <= 0xDFFF }

  // A character: any code point but a surrogate.
  predicate Scalar(c: nat) { c <= 0x10FFFF && !Surrogate(c) }

  // ---- UTF-8 -------------------------------------------------------------------------

  // How section 3 of RFC 3629 writes a character.
  function Utf8(c: nat): (b: Buffer)
    requires c <= 0x10FFFF
  {
    if c < 0x80 then [c]
    else if c < 0x800 then [0xC0 + c / 64, 0x80 + c % 64]
    else if c < 0x10000 then [0xE0 + c / 4096, 0x80 + c / 64 % 64, 0x80 + c % 64]
    else [0xF0 + c / 262144, 0x80 + c / 4096 % 64, 0x80 + c / 64 % 64, 0x80 + c % 64]
  }

  function Utf8All(cs: seq<nat>): Buffer
    requires forall i :: 0 <= i < |cs| ==> cs[i] <= 0x10FFFF
  {
    if cs == [] then [] else Utf8(cs[0]) + Utf8All(cs[1..])
  }

  // The byte at i of a string that ends with a 0.
  function At(s: Buffer, i: nat): Byte { if i < |s| then s[i] else 0 }

  predicate Continues(b: Byte) { b / 64 == 2 }

  // Continuation bytes a lead byte announces, or -1.
  function Announced(c: Byte): int {
    if c < 0x80 then 0 else if c / 32 == 6 then 1 else if c / 16 == 14 then 2 else if c / 8 == 30 then 3 else -1
  }

  // The bits a lead byte carries.
  function LeadBits(c: Byte): nat {
    if c < 0x80 then c else if c / 32 == 6 then c % 32 else if c / 16 == 14 then c % 16
    else if c / 8 == 30 then c % 8 else REPLACEMENT
  }

  // The bits gathered from the n continuation bytes expected from i on, as far as
  // they are there, and how many were.
  function Gathered(s: Buffer, i: nat, cp: nat, n: nat): (nat, nat)
    decreases n
  {
    if n == 0 || !Continues(At(s, i)) then (cp, 0)
    else var (r, k) := Gathered(s, i + 1, cp * 64 + At(s, i) % 64, n - 1); (r, k + 1)
  }

  // The least character that needs n continuation bytes.
  function Least(n: int): nat { if n == 1 then 0x80 else if n == 2 then 0x800 else if n == 3 then 0x10000 else 0 }

  // The character at i, a replacement if what is there is not well formed, and how
  // many bytes it takes.
  function Next(s: Buffer, i: nat): (r: (nat, nat))
    ensures Scalar(r.0) && 0 < r.1
  {
    var c := At(s, i);
    var n := Announced(c);
    if n < 0 then (REPLACEMENT, 1)
    else
      var (cp, k) := Gathered(s, i + 1, LeadBits(c), n);
      if k < n || cp < Least(n) || !Scalar(cp) then (REPLACEMENT, k + 1) else (cp, k + 1)
  }

  // The characters of the string from i on.
  function Characters(s: Buffer, i: nat): seq<nat>
    decreases if i <= |s| then |s| - i else 0
  {
    if At(s, i) == 0 then [] else [Next(s, i).0] + Characters(s, i + Next(s, i).1)
  }

  // What the lead byte of a character says.
  lemma LeadOf(c: nat)
    requires Scalar(c)
    ensures var b := Utf8(c); var n := |b| - 1;
      && Announced(b[0]) == n && Least(n) <= c && (c != 0 ==> b[0] != 0)
      && LeadBits(b[0]) == if n == 0 then c else if n == 1 then c / 64 else if n == 2 then c / 4096 else c / 262144
  {
  }

  // What its continuation bytes say.
  lemma TailOf(c: nat, k: nat)
    requires Scalar(c) && 0 < k < |Utf8(c)|
    ensures var b := Utf8(c); var m := |b| - 1 - k;
      && Continues(b[k])
      && b[k] % 64 == (if m == 0 then c else if m == 1 then c / 64 else c / 4096) % 64
  {
  }

  // The bits above those of the last m continuation bytes.
  function Above(c: nat, m: nat): nat { if m == 0 then c else Above(c / 64, m - 1) }

  lemma AboveStep(c: nat, m: nat)
    requires 0 < m <= 3
    ensures Above(c, m) * 64 + Above(c, m - 1) % 64 == Above(c, m - 1)
    ensures Above(c, 0) == c && Above(c, 1) == c / 64 && Above(c, 2) == c / 4096 && Above(c, 3) == c / 262144
  {
    assert Above(c, 1) == Above(c / 64, 0);
    assert Above(c, 2) == Above(c / 64, 1) == Above(c / 64 / 64, 0);
    assert Above(c, 3) == Above(c / 64, 2) == Above(c / 64 / 64, 1) == Above(c / 64 / 64 / 64, 0);
  }

  // Gathering the last m continuation bytes of a character.
  lemma {:induction false} GatheredOf(c: nat, s: Buffer, m: nat)
    requires Scalar(c) && Utf8(c) <= s && m < |Utf8(c)|
    ensures Gathered(s, |Utf8(c)| - m, Above(c, m), m) == (c, m)
    decreases m
  {
    hide Utf8, Continues;
    if m > 0 {
      assert |Utf8(c)| <= 4 by { LengthOf(c); }
      var k := |Utf8(c)| - m;
      assert s[k] == Utf8(c)[k];
      TailOf(c, k);
      AboveStep(c, m);
      GatheredOf(c, s, m - 1);
    } else {
      AboveStep(c, 1);
    }
  }

  lemma LengthOf(c: nat)
    requires Scalar(c)
    ensures 0 < |Utf8(c)| <= 4
  {
  }

  /** A character is read back from how it is written, whatever follows. */
  lemma NextOfEncoded(c: nat, rest: Buffer)
    requires 0 < c && Scalar(c)
    ensures Next(Utf8(c) + rest, 0) == (c, |Utf8(c)|) && At(Utf8(c) + rest, 0) != 0
  {
    hide Utf8, Announced, LeadBits, Gathered, Least;
    LengthOf(c);
    LeadOf(c);
    var s, n := Utf8(c) + rest, |Utf8(c)| - 1;
    assert Utf8(c) <= s && s[0] == Utf8(c)[0];
    AboveStep(c, 1);
    GatheredOf(c, s, n);
  }

  lemma {:induction false} GatheredShift(p: Buffer, s: Buffer, i: nat, cp: nat, n: nat)
    ensures Gathered(p + s, |p| + i, cp, n) == Gathered(s, i, cp, n)
    decreases n
  {
    assert At(p + s, |p| + i) == At(s, i);
    if n > 0 {
      GatheredShift(p, s, i + 1, cp * 64 + At(s, i) % 64, n - 1);
    }
  }

  lemma NextShift(p: Buffer, s: Buffer, i: nat)
    ensures Next(p + s, |p| + i) == Next(s, i) && At(p + s, |p| + i) == At(s, i)
  {
    hide Announced, LeadBits, Gathered, Scalar, Least;
    assert At(p + s, |p| + i) == At(s, i);
    var n := Announced(At(s, i));
    if n >= 0 {
      GatheredShift(p, s, i + 1, LeadBits(At(s, i)), n);
    }
  }

  lemma {:induction false} CharactersShift(p: Buffer, s: Buffer, i: nat)
    ensures Characters(p + s, |p| + i) == Characters(s, i)
    decreases if i <= |s| then |s| - i else 0
  {
    hide Next, At;
    NextShift(p, s, i);
    if At(s, i) != 0 {
      AtInside(s, i);
      CharactersShift(p, s, i + Next(s, i).1);
    }
  }

  lemma AtInside(s: Buffer, i: nat)
    requires At(s, i) != 0
    ensures i < |s|
  {
  }

  /** Well-formed UTF-8 is read as the characters it encodes. */
  lemma {:induction false} EncodedIsRead(cs: seq<nat>)
    requires forall i :: 0 <= i < |cs| ==> 0 < cs[i] && Scalar(cs[i])
    ensures (forall i :: 0 <= i < |cs| ==> cs[i] <= 0x10FFFF) && Characters(Utf8All(cs), 0) == cs
    decreases |cs|
  {
    hide Next, Utf8;
    if cs != [] {
      var p, s := Utf8(cs[0]), Utf8All(cs[1..]);
      NextOfEncoded(cs[0], s);
      CharactersShift(p, s, 0);
      EncodedIsRead(cs[1..]);
    }
  }

  lemma EncodedMore(cs: seq<nat>, rest: Buffer)
    requires cs != [] && forall i :: 0 <= i < |cs| ==> cs[i] <= 0x10FFFF
    ensures Utf8All(cs) + [0] + rest == Utf8(cs[0]) + (Utf8All(cs[1..]) + [0] + rest)
  {
    hide Utf8, Utf8All;
    EncodedFirst(cs);
    Regroup(Utf8(cs[0]), Utf8All(cs[1..]), [0]);
    Regroup(Utf8(cs[0]), Utf8All(cs[1..]) + [0], rest);
  }

  lemma Regroup(a: Buffer, b: Buffer, c: Buffer)
    ensures a + b + c == a + (b + c)
  {
  }

  lemma EncodedFirst(cs: seq<nat>)
    requires cs != [] && forall i :: 0 <= i < |cs| ==> cs[i] <= 0x10FFFF
    ensures Utf8All(cs) == Utf8(cs[0]) + Utf8All(cs[1..])
  {
    hide Utf8;
  }

  /** Reading stops at the first 0. */
  lemma {:induction false} EncodedThenZero(cs: seq<nat>, rest: Buffer)
    requires forall i :: 0 <= i < |cs| ==> 0 < cs[i] && Scalar(cs[i])
    ensures (forall i :: 0 <= i < |cs| ==> cs[i] <= 0x10FFFF) && Characters(Utf8All(cs) + [0] + rest, 0) == cs
    decreases |cs|
  {
    hide Next, Utf8;
    if cs != [] {
      var p, s := Utf8(cs[0]), Utf8All(cs[1..]) + [0] + rest;
      EncodedMore(cs, rest);
      NextOfEncoded(cs[0], s);
      CharactersShift(p, s, 0);
      EncodedThenZero(cs[1..], rest);
    }
  }

  lemma {:induction false} GatheredContinues(s: Buffer, i: nat, cp: nat, n: nat)
    ensures Gathered(s, i, cp, n).1 <= n
    ensures forall j :: i <= j < i + Gathered(s, i, cp, n).1 ==> Continues(At(s, j))
    decreases n
  {
    if n > 0 && Continues(At(s, i)) {
      GatheredContinues(s, i + 1, cp * 64 + At(s, i) % 64, n - 1);
    }
  }

  /** A malformed sequence takes continuation bytes with it and nothing else: the
      character after it is not lost. */
  lemma NextConsumes(s: Buffer, i: nat)
    ensures forall j :: i < j < i + Next(s, i).1 ==> Continues(At(s, j))
  {
    hide LeadBits, Announced, Least, Continues;
    var n := Announced(At(s, i));
    if n >= 0 {
      GatheredContinues(s, i + 1, LeadBits(At(s, i)), n);
    }
  }

  // The continuation bytes a lead byte announces, in numbers: 0 for a lead that is none.
  function Expected(c: nat): nat {
    if 0xC0 <= c < 0xE0 then 1 else if 0xE0 <= c < 0xF0 then 2 else if 0xF0 <= c < 0xF8 then 3 else 0
  }

  // j continuation bytes follow from i on, and then, before the n-th, something else.
  ghost predicate RunOf(s: Buffer, i: nat, j: nat, n: nat) {
    && j <= n && (forall k :: i <= k < i + j ==> 0x80 <= At(s, k) < 0xC0)
    && (j < n ==> !(0x80 <= At(s, i + j) < 0xC0))
  }

  lemma {:induction false} GatheredRun(s: Buffer, i: nat, cp: nat, n: nat, j: nat)
    requires RunOf(s, i, j, n)
    ensures Gathered(s, i, cp, n).1 == j
    decreases n
  {
    hide At;
    if n > 0 && j > 0 {
      assert 0x80 <= At(s, i) < 0xC0;
      GatheredRun(s, i + 1, cp * 64 + At(s, i) % 64, n - 1, j - 1);
    }
  }

  /** A sequence takes its lead byte and just those continuation bytes it announces that
      are there; one that lacks some, or whose lead is none, is read as U+FFFD. */
  lemma NextTakes(s: Buffer, i: nat, j: nat)
    requires RunOf(s, i + 1, j, Expected(At(s, i)))
    ensures Next(s, i).1 == j + 1
    ensures j < Expected(At(s, i)) || 0x80 <= At(s, i) < 0xC0 || 0xF8 <= At(s, i) ==> Next(s, i).0 == 0xFFFD
  {
    hide At, LeadBits, Gathered;
    var n := Announced(At(s, i));
    if n >= 0 {
      assert n == Expected(At(s, i));
      GatheredRun(s, i + 1, LeadBits(At(s, i)), n, j);
    }
  }

  /** One character of each length, as section 3 of RFC 3629 has it written. */
  lemma Utf8Written()
    ensures Utf8(0x41) == [0x41] && Utf8(0xA2) == [0xC2, 0xA2]
    ensures Utf8(0x20AC) == [0xE2, 0x82, 0xAC] && Utf8(0x10348) == [0xF0, 0x90, 0x8D, 0x88]
  {
  }

  // The bits of up to three continuation bytes, spelled out.
  lemma GatheredBits(s: Buffer, i: nat, cp: nat)
    requires Continues(At(s, i))
    ensures Gathered(s, i, cp, 1) == (cp * 64 + At(s, i) % 64, 1)
    ensures Continues(At(s, i + 1)) ==>
      Gathered(s, i, cp, 2) == ((cp * 64 + At(s, i) % 64) * 64 + At(s, i + 1) % 64, 2)
    ensures Continues(At(s, i + 1)) && Continues(At(s, i + 2)) ==>
      Gathered(s, i, cp, 3) == (((cp * 64 + At(s, i) % 64) * 64 + At(s, i + 1) % 64) * 64 + At(s, i + 2) % 64, 3)
  {
    hide At, Continues;
    var a, b, c := At(s, i) % 64, At(s, i + 1) % 64, At(s, i + 2) % 64;
    assert Gathered(s, i + 1, cp * 64 + a, 0) == (cp * 64 + a, 0);
    assert Gathered(s, i + 2, (cp * 64 + a) * 64 + b, 0) == ((cp * 64 + a) * 64 + b, 0);
    assert Gathered(s, i + 3, ((cp * 64 + a) * 64 + b) * 64 + c, 0) == (((cp * 64 + a) * 64 + b) * 64 + c, 0);
    if Continues(At(s, i + 1)) {
      assert Gathered(s, i + 1, cp * 64 + a, 1) == ((cp * 64 + a) * 64 + b, 1);
      if Continues(At(s, i + 2)) {
        assert Gathered(s, i + 2, (cp * 64 + a) * 64 + b, 1) == (((cp * 64 + a) * 64 + b) * 64 + c, 1);
        assert Gathered(s, i + 1, cp * 64 + a, 2) == (((cp * 64 + a) * 64 + b) * 64 + c, 2);
      }
    }
  }

  // A lead byte and its continuation bytes are how the character is written, unless
  // a shorter way exists.
  lemma TwoBytes(l: Byte, x: Byte)
    requires Announced(l) == 1 && Continues(x) && LeadBits(l) * 64 + x % 64 >= 0x80
    ensures LeadBits(l) * 64 + x % 64 < 0x800 && Utf8(LeadBits(l) * 64 + x % 64) == [l, x]
  {
  }

  lemma Places(q: nat, r: nat)
    requires r < 64
    ensures (q * 64 + r) / 64 == q && (q * 64 + r) % 64 == r
  {
  }

  lemma Quotients(c: nat)
    ensures c / 4096 == c / 64 / 64 && c / 262144 == c / 64 / 64 / 64
  {
  }

  lemma Continuation(x: Byte)
    requires Continues(x)
    ensures x == 0x80 + x % 64
  {
  }

  lemma Lead(l: Byte)
    requires Announced(l) > 0
    ensures l == LeadBits(l) + if Announced(l) == 1 then 0xC0 else if Announced(l) == 2 then 0xE0 else 0xF0
    ensures LeadBits(l) < if Announced(l) == 1 then 32 else if Announced(l) == 2 then 16 else 8
  {
  }

  lemma ThreeBytes(l: Byte, x: Byte, y: Byte)
    requires Announced(l) == 2 && Continues(x) && Continues(y) && (LeadBits(l) * 64 + x % 64) * 64 + y % 64 >= 0x800
    ensures var c := (LeadBits(l) * 64 + x % 64) * 64 + y % 64; c < 0x10000 && Utf8(c) == [l, x, y]
  {
    hide Announced, LeadBits, Continues;
    Lead(l);
    Continuation(x);
    Continuation(y);
    var d := LeadBits(l) * 64 + x % 64;
    Places(LeadBits(l), x % 64);
    Places(d, y % 64);
    Quotients(d * 64 + y % 64);
  }

  lemma FourBytes(l: Byte, x: Byte, y: Byte, z: Byte)
    requires Announced(l) == 3 && Continues(x) && Continues(y) && Continues(z)
    requires 0x10000 <= ((LeadBits(l) * 64 + x % 64) * 64 + y % 64) * 64 + z % 64 <= 0x10FFFF
    ensures Utf8(((LeadBits(l) * 64 + x % 64) * 64 + y % 64) * 64 + z % 64) == [l, x, y, z]
  {
    hide Announced, LeadBits, Continues;
    Lead(l);
    Continuation(x);
    Continuation(y);
    Continuation(z);
    var d := LeadBits(l) * 64 + x % 64;
    var e := d * 64 + y % 64;
    Places(LeadBits(l), x % 64);
    Places(d, y % 64);
    Places(e, z % 64);
    Quotients(e * 64 + z % 64);
  }

  /** A character other than the replacement is read only where exactly its own
      encoding stands: no overlong form, no surrogate, nothing cut short. */
  lemma ReadIsEncoded(s: Buffer, i: nat)
    requires At(s, i) != 0 && Next(s, i).0 != REPLACEMENT
    ensures var (c, k) := Next(s, i); i + k <= |s| && s[i..i + k] == Utf8(c)
  {
    hide Announced, LeadBits, Gathered, Utf8;
    var n, l := Announced(At(s, i)), LeadBits(At(s, i));
    AnnouncedRange(At(s, i));
    GatheredContinues(s, i + 1, l, n);
    if n == 0 {
      OneByte(s, i);
    } else {
      ContinuesInside(s, i + n);
      GatheredBits(s, i + 1, l);
      if n == 1 {
        TwoBytes(s[i], s[i + 1]);
      } else if n == 2 {
        ThreeBytes(s[i], s[i + 1], s[i + 2]);
      } else {
        FourBytes(s[i], s[i + 1], s[i + 2], s[i + 3]);
      }
    }
  }

  lemma AnnouncedRange(c: Byte)
    ensures -1 <= Announced(c) <= 3
  {
  }

  lemma OneByte(s: Buffer, i: nat)
    requires At(s, i) != 0 && Announced(At(s, i)) == 0
    ensures Next(s, i) == (s[i], 1) && Utf8(s[i]) == [s[i]] && s[i..i + 1] == [s[i]]
  {
  }

  lemma ContinuesInside(s: Buffer, i: nat)
    requires Continues(At(s, i))
    ensures i < |s|
  {
  }

  // ---- wide characters -----------------------------------------------------------------

  // A character as wide characters: one of 32 bits, or one or two of 16 (section
  // 2.1 of RFC 2781).
  function Widen(c: nat, wide: bool): seq<nat>
    requires c <= 0x10FFFF
  {
    if !wide && c > 0xFFFF then Pair(c) else [c]
  }

  function Pair(c: nat): seq<nat>
    requires 0xFFFF < c <= 0x10FFFF
  {
    [0xD800 + (c - 0x10000) / 0x400, 0xDC00 + (c - 0x10000) % 0x400]
  }

  predicate AllScalar(cs: seq<nat>) { forall i :: 0 <= i < |cs| ==> Scalar(cs[i]) }

  function WidenAll(cs: seq<nat>, wide: bool): seq<nat>
    requires AllScalar(cs)
  {
    if cs == [] then [] else Widen(cs[0], wide) + WidenAll(cs[1..], wide)
  }

  lemma {:induction false} CharactersScalar(s: Buffer, i: nat)
    ensures AllScalar(Characters(s, i))
    decreases if i <= |s| then |s| - i else 0
  {
    hide Next;
    if At(s, i) != 0 {
      CharactersScalar(s, i + Next(s, i).1);
    }
  }

  lemma {:induction false} WidenAppend(cs: seq<nat>, c: nat, wide: bool)
    requires AllScalar(cs) && Scalar(c)
    ensures AllScalar(cs + [c]) && WidenAll(cs + [c], wide) == WidenAll(cs, wide) + Widen(c, wide)
    decreases |cs|
  {
    hide Widen;
    if cs == [] {
      assert [c][1..] == [];
    } else {
      assert (cs + [c])[1..] == cs[1..] + [c];
      WidenAppend(cs[1..], c, wide);
    }
  }

  // One character: the lead byte, the continuation bytes as far as they are there,
  // and the judgement of what came of it.
  method ReadCharacter(s: Buffer, i: nat) returns (cp: nat, j: nat)
    requires At(s, i) != 0
    ensures (cp, j - i) == Next(s, i) && j > i
  {
    hide At, Announced, LeadBits;
    var c := At(s, i);
    j := i + 1;
    cp := LeadBits(c);
    var n := Announced(c);
    var k := 0;
    ghost var was := cp;
    var short := false;
    while k < n && !short
      invariant 0 <= k && (0 <= n ==> k <= n) && j == i + 1 + k && (short ==> k < n && !Continues(At(s, j)))
      invariant n < 0 ==> k == 0
      invariant n >= 0 ==> Gathered(s, i + 1, was, n) == (Gathered(s, j, cp, n - k).0, Gathered(s, j, cp, n - k).1 + k)
      decreases n - k, !short
    {
      if !Continues(At(s, j)) {
        short := true;
      } else {
        cp := cp * 64 + At(s, j) % 64;
        j := j + 1;
        k := k + 1;
      }
    }
    if n < 0 || short || cp < Least(n) || cp > 0x10FFFF || (0xD800 <= cp <= 0xDFFF) {
      cp := REPLACEMENT;
    }
  }

  /** Reads any bytes up to the first 0 as characters, malformed ones as U+FFFD. */
  method Utf8ToWide(s: Buffer, wide: bool) returns (out: seq<nat>)
    ensures AllScalar(Characters(s, 0)) && out == WidenAll(Characters(s, 0), wide)
  {
    hide Next, Widen, Characters, At;
    out := [];
    var i := 0;
    ghost var done := [];
    CharactersScalar(s, 0);
    while At(s, i) != 0
      invariant AllScalar(done) && out == WidenAll(done, wide) && Characters(s, 0) == done + Characters(s, i)
      decreases if i <= |s| then |s| - i else 0
    {
      var cp, j := ReadCharacter(s, i);
      CharactersStep(s, i);
      WidenAppend(done, cp, wide);
      AtInside(s, i);
      if !wide && cp > 0xFFFF {
        cp := cp - 0x10000;
        out := out + [0xD800 + cp / 0x400];
        out := out + [0xDC00 + cp % 0x400];
        assert Widen(cp + 0x10000, wide) == [0xD800 + cp / 0x400, 0xDC00 + cp % 0x400] by {
          WidenIs(cp + 0x10000, wide);
        }
        done := done + [cp + 0x10000];
      } else {
        WidenIs(cp, wide);
        out := out + [cp];
        done := done + [cp];
      }
      i := j;
    }
    CharactersStep(s, i);
    assert done + [] == done;
  }

  lemma CharactersStep(s: Buffer, i: nat)
    ensures Characters(s, i) == if At(s, i) == 0 then [] else [Next(s, i).0] + Characters(s, i + Next(s, i).1)
  {
  }

  lemma WidenIs(c: nat, wide: bool)
    requires Scalar(c)
    ensures Widen(c, wide) == if !wide && c > 0xFFFF then Pair(c) else [c]
  {
  }

  // ---- UTF-16 units ----------------------------------------------------------------------

  // The units of a wide character; one past the last code point has none of its own.
  function UnitsFor(c: nat, wide: bool): seq<nat> {
    if wide && c > 0xFFFF then (if c > 0x10FFFF then [REPLACEMENT] else Pair(c)) else [c]
  }

  function Units(s: seq<nat>, wide: bool): seq<nat> {
    if s == [] then [] else UnitsFor(s[0], wide) + Units(s[1..], wide)
  }

  // Section 2.2 of RFC 2781: a pair of surrogates is one character, any other unit
  // stands for itself.
  function FromUnits(us: seq<nat>, wide: bool): seq<nat>
    decreases |us|
  {
    if us == [] then []
    else if wide && High(us[0]) && |us| > 1 && Low(us[1]) then [Merged(us[0], us[1])] + FromUnits(us[2..], wide)
    else [us[0]] + FromUnits(us[1..], wide)
  }

  function Merged(hi: nat, lo: nat): nat
    requires High(hi) && Low(lo)
  {
    0x10000 + (hi - 0xD800) * 0x400 + (lo - 0xDC00)
  }

  lemma PairMerges(c: nat)
    requires 0xFFFF < c <= 0x10FFFF
    ensures High(Pair(c)[0]) && Low(Pair(c)[1]) && Merged(Pair(c)[0], Pair(c)[1]) == c
  {
  }

  /** The high unit of a pair stands for 1024 characters in a row, the low one for the
      place among them. */
  lemma PairNumbers(c: nat, hi: nat)
    requires 0x10000 <= c <= 0x10FFFF && High(hi)
    ensures Pair(c)[0] == hi <==> 0x10000 + 1024 * (hi - 0xD800) <= c < 0x10000 + 1024 * (hi - 0xD800 + 1)
    ensures Pair(c)[1] == 0xDC00 + c % 1024
    ensures Pair(0x10000) == [0xD800, 0xDC00] && Pair(0x1F600) == [0xD83D, 0xDE00]
    ensures Pair(0x10FFFF) == [0xDBFF, 0xDFFF]
  {
  }

  /** The units of a character in numbers. */
  lemma UnitsNumbers(c: nat)
    ensures UnitsFor(c, false) == [c] && (c <= 0xFFFF ==> UnitsFor(c, true) == [c])
    ensures 0xFFFF < c <= 0x10FFFF ==> |UnitsFor(c, true)| == 2
    ensures 0x10FFFF < c ==> UnitsFor(c, true) == [0xFFFD]
  {
  }

  // A text of 32-bit characters that units can carry: no number past the last code
  // point, and no high surrogate right before a low one.
  predicate Carried(s: seq<nat>) {
    && (forall i :: 0 <= i < |s| ==> s[i] <= 0x10FFFF)
    && (forall i :: 0 <= i && i + 1 < |s| ==> !(High(s[i]) && Low(s[i + 1])))
  }

  lemma CarriedTail(s: seq<nat>)
    requires s != []
    ensures Carried(s) <==>
      s[0] <= 0x10FFFF && !(|s| > 1 && High(s[0]) && Low(s[1])) && Carried(s[1..])
  {
    if Carried(s[1..]) {
      assert forall i :: 0 < i < |s| ==> s[i] == s[1..][i - 1];
    }
  }

  // The first unit of what follows is low exactly when the character is.
  lemma FirstUnit(s: seq<nat>)
    requires s != []
    ensures Units(s, true) != [] && (Low(Units(s, true)[0]) <==> Low(s[0]))
  {
  }

  /** 32-bit text comes back from its units exactly when units can carry it. */
  lemma {:induction false} WideRoundTrip(s: seq<nat>)
    ensures FromUnits(Units(s, true), true) == s <==> Carried(s)
    decreases |s|
  {
    if s != [] {
      CarriedTail(s);
      WideRoundTrip(s[1..]);
      var us, rest := Units(s, true), Units(s[1..], true);
      if |s| > 1 {
        FirstUnit(s[1..]);
      }
      if 0xFFFF < s[0] <= 0x10FFFF {
        PairMerges(s[0]);
        assert us[2..] == rest;
      } else {
        assert us[1..] == rest;
      }
    }
  }

  /** 16-bit text is its own units. */
  lemma {:induction false} NarrowRoundTrip(s: seq<nat>)
    ensures FromUnits(Units(s, false), false) == s
    decreases |s|
  {
    if s != [] {
      NarrowRoundTrip(s[1..]);
      assert Units(s, false)[1..] == Units(s[1..], false);
    }
  }

  lemma {:induction false} ScalarsCarried(cs: seq<nat>)
    requires AllScalar(cs)
    ensures WidenAll(cs, true) == cs && Carried(cs)
    decreases |cs|
  {
    if cs != [] {
      ScalarsCarried(cs[1..]);
    }
  }

  // ---- units as bytes --------------------------------------------------------------------

  predicate AllUnits(us: seq<nat>) { forall i :: 0 <= i < |us| ==> us[i] <= 0xFFFF }

  // Low byte first.
  function UnitBytes(us: seq<nat>): (b: Buffer)
    requires AllUnits(us)
    ensures |b| == 2 * |us|
  {
    if us == [] then [] else [us[0] % 256, us[0] / 256] + UnitBytes(us[1..])
  }

  /** A unit has its low byte at an even place and its high byte behind it. */
  lemma {:induction false} LowByteFirst(us: seq<nat>, i: nat)
    requires AllUnits(us) && i < |us|
    ensures UnitBytes(us)[2 * i] == us[i] % 256 && UnitBytes(us)[2 * i + 1] == us[i] / 256
    decreases |us|
  {
    if i > 0 {
      LowByteFirst(us[1..], i - 1);
    }
  }

  // The unit at index i of some bytes.
  function UnitAt(b: Buffer, i: nat): nat
    requires 2 * i + 1 < |b|
  {
    var lo: nat, hi: nat := b[2 * i], b[2 * i + 1];
    lo + 256 * hi
  }

  function UnitsOf(b: Buffer, n: nat): (us: seq<nat>)
    requires 2 * n <= |b|
    ensures |us| == n
  {
    if n == 0 then [] else UnitsOf(b, n - 1) + [UnitAt(b, n - 1)]
  }

  lemma {:induction false} UnitBytesAt(us: seq<nat>, rest: Buffer, i: nat)
    requires AllUnits(us) && i < |us|
    ensures UnitAt(UnitBytes(us) + rest, i) == us[i]
    decreases |us|
  {
    if i > 0 {
      UnitBytesAt(us[1..], rest, i - 1);
      assert UnitBytes(us)[2..] == UnitBytes(us[1..]);
    }
  }

  /** The units come back from their bytes, whatever follows them. */
  lemma {:induction false} BytesComeBack(us: seq<nat>, rest: Buffer, n: nat)
    requires AllUnits(us) && n <= |us|
    ensures UnitsOf(UnitBytes(us) + rest, n) == us[..n]
    decreases n
  {
    hide UnitAt;
    if n > 0 {
      BytesComeBack(us, rest, n - 1);
      UnitBytesAt(us, rest, n - 1);
      assert us[..n] == us[..n - 1] + [us[n - 1]];
    }
  }

  lemma {:induction false} UnitBytesAppend(us: seq<nat>, u: nat)
    requires AllUnits(us) && u <= 0xFFFF
    ensures UnitBytes(us + [u]) == UnitBytes(us) + [u % 256, u / 256]
    decreases |us|
  {
    if us == [] {
      assert [u][1..] == [];
    } else {
      assert (us + [u])[1..] == us[1..] + [u];
      UnitBytesAppend(us[1..], u);
    }
  }

  lemma {:induction false} UnitsAppend(s: seq<nat>, c: nat, wide: bool)
    ensures Units(s + [c], wide) == Units(s, wide) + UnitsFor(c, wide)
    decreases |s|
  {
    if s == [] {
      assert [c][1..] == [];
    } else {
      assert (s + [c])[1..] == s[1..] + [c];
      UnitsAppend(s[1..], c, wide);
    }
  }

  // How many characters of the text are past the last code point.
  function Beyond(s: seq<nat>, wide: bool): nat {
    if s == [] then 0 else (if wide && s[0] > 0x10FFFF then 1 else 0) + Beyond(s[1..], wide)
  }

  lemma {:induction false} BeyondAppend(s: seq<nat>, c: nat, wide: bool)
    ensures Beyond(s + [c], wide) == Beyond(s, wide) + if wide && c > 0x10FFFF then 1 else 0
    decreases |s|
  {
    if s == [] {
      assert [c][1..] == [];
    } else {
      assert (s + [c])[1..] == s[1..] + [c];
      BeyondAppend(s[1..], c, wide);
    }
  }

  /** Room for the units of a text: two for every character past 16 bits, one too
      many for each that is past the last code point. */
  method WideUnits(s: seq<nat>, wide: bool) returns (m: nat)
    ensures m == |Units(s, wide)| + Beyond(s, wide)
  {
    m := |s|;
    var i := 0;
    assert s[..0] == [];
    while i < |s|
      invariant 0 <= i <= |s| && m == |s| - i + |Units(s[..i], wide)| + Beyond(s[..i], wide)
    {
      UnitsAppend(s[..i], s[i], wide);
      BeyondAppend(s[..i], s[i], wide);
      assert s[..i + 1] == s[..i] + [s[i]];
      if wide && s[i] > 0xFFFF {
        m := m + 1;
      }
      i := i + 1;
    }
    assert s[..i] == s;
  }

  predicate Wide(s: seq<nat>, wide: bool) { wide || AllUnits(s) }

  lemma {:induction false} UnitsFit(s: seq<nat>, wide: bool)
    requires Wide(s, wide)
    ensures AllUnits(Units(s, wide))
    decreases |s|
  {
    if s != [] {
      UnitsFit(s[1..], wide);
    }
  }

  /** Writes a text as bytes of its units and at least one terminating 0 unit. */
  method TextToUnits(s: seq<nat>, wide: bool) returns (out: array<Byte>)
    requires Wide(s, wide)
    ensures fresh(out) && AllUnits(Units(s, wide))
    ensures out[..] == UnitBytes(Units(s, wide)) + Zeros(2 * (1 + Beyond(s, wide)))
  {
    hide Units, UnitBytes, UnitsFor;
    var room := WideUnits(s, wide);
    UnitsFit(s, wide);
    out := new Byte[(room + 1) * 2](_ => 0);
    var o, i := 0, 0;
    NoUnits(s, wide);
    while i < |s|
      invariant 0 <= i <= |s| && Wide(s[..i], wide) && AllUnits(Units(s[..i], wide))
      invariant o == 2 * |Units(s[..i], wide)| <= out.Length
      invariant out.Length == (room + 1) * 2
      invariant out[..o] == UnitBytes(Units(s[..i], wide)) && forall k :: o <= k < out.Length ==> out[k] == 0
    {
      UnitsUpTo(s, i, wide);
      var cp := s[i];
      var us := UnitsFor(cp, wide);
      UnitsForFit(cp, wide);
      o := PutUnits(out, o, us, Units(s[..i], wide));
      i := i + 1;
    }
    assert s[..i] == s;
    assert out[..] == out[..o] + out[o..];
    assert out[o..] == Zeros(2 * (1 + Beyond(s, wide)));
  }

  // Moves one or two units into the buffer.
  method PutUnits(out: array<Byte>, o: nat, us: seq<nat>, ghost before: seq<nat>) returns (end: nat)
    requires AllUnits(us) && 0 < |us| <= 2 && o + 2 * |us| <= out.Length
    requires AllUnits(before) && out[..o] == UnitBytes(before)
    modifies out
    ensures end == o + 2 * |us| && AllUnits(before + us) && out[..end] == UnitBytes(before + us)
    ensures forall k :: end <= k < out.Length ==> out[k] == old(out[k])
  {
    hide UnitBytes;
    UnitBytesAppend(before, us[0]);
    out[o], out[o + 1] := us[0] % 256, us[0] / 256;
    end := o + 2;
    assert out[..end] == out[..o] + [us[0] % 256, us[0] / 256];
    if |us| == 2 {
      UnitBytesAppend(before + [us[0]], us[1]);
      out[end], out[end + 1] := us[1] % 256, us[1] / 256;
      assert out[..end + 2] == out[..end] + [us[1] % 256, us[1] / 256];
      end := end + 2;
      assert before + us == before + [us[0]] + [us[1]];
    } else {
      assert before + us == before + [us[0]];
    }
  }

  lemma NoUnits(s: seq<nat>, wide: bool)
    ensures s[..0] == [] && Units([], wide) == [] && UnitBytes([]) == []
  {
  }

  lemma UnitsForFit(c: nat, wide: bool)
    requires wide || c <= 0xFFFF
    ensures AllUnits(UnitsFor(c, wide)) && 0 < |UnitsFor(c, wide)| <= 2
  {
  }

  // The units so far, and what is still to come.
  lemma UnitsUpTo(s: seq<nat>, i: nat, wide: bool)
    requires i < |s| && Wide(s, wide)
    ensures Units(s[..i + 1], wide) == Units(s[..i], wide) + UnitsFor(s[i], wide)
    ensures |Units(s[..i + 1], wide)| <= |Units(s, wide)| && Wide(s[..i + 1], wide)
    ensures AllUnits(Units(s[..i + 1], wide))
  {
    hide UnitsFor;
    assert s[..i + 1] == s[..i] + [s[i]];
    UnitsAppend(s[..i], s[i], wide);
    UnitsPrefix(s, i + 1, wide);
    UnitsFit(s[..i + 1], wide);
  }

  lemma {:induction false} UnitsPrefix(s: seq<nat>, i: nat, wide: bool)
    requires i <= |s|
    ensures |Units(s[..i], wide)| <= |Units(s, wide)|
    decreases |s| - i
  {
    hide UnitsFor;
    if i == |s| {
      assert s[..i] == s;
    } else {
      assert s[..i + 1] == s[..i] + [s[i]];
      UnitsAppend(s[..i], s[i], wide);
      UnitsPrefix(s, i + 1, wide);
    }
  }

  // The character the unit at i starts, and where the next one starts.
  method ReadUnit(b: Buffer, n: nat, i: nat, wide: bool) returns (c: nat, j: nat)
    requires 2 * n <= |b| && i < n
    ensures i < j <= n && FromUnits(UnitsOf(b, n)[i..], wide) == [c] + FromUnits(UnitsOf(b, n)[j..], wide)
  {
    hide FromUnits, Merged, UnitAt, UnitsOf;
    var u := UnitAt(b, i);
    UnitsOfAt(b, n, i);
    FromUnitsStep(UnitsOf(b, n), i, wide);
    if wide && High(u) && i + 1 < n {
      var lo := UnitAt(b, i + 1);
      UnitsOfAt(b, n, i + 1);
      if Low(lo) {
        return Merged(u, lo), i + 2;
      }
    }
    return u, i + 1;
  }

  /** Reads n units, at any offset, as text. */
  method UnitsToText(b: Buffer, n: nat, wide: bool) returns (out: seq<nat>)
    requires 2 * n <= |b|
    ensures out == FromUnits(UnitsOf(b, n), wide)
  {
    hide FromUnits, UnitsOf;
    ghost var us := UnitsOf(b, n);
    out := [];
    var i := 0;
    assert us[0..] == us;
    while i < n
      invariant 0 <= i <= n && out + FromUnits(us[i..], wide) == FromUnits(us, wide)
      decreases n - i
    {
      var c, j := ReadUnit(b, n, i, wide);
      assert out + ([c] + FromUnits(us[j..], wide)) == out + [c] + FromUnits(us[j..], wide);
      out := out + [c];
      i := j;
    }
    FromUnitsStep(us, n, wide);
    assert out + [] == out;
  }

  lemma {:induction false} UnitsOfAt(b: Buffer, n: nat, i: nat)
    requires 2 * n <= |b| && i < n
    ensures UnitsOf(b, n)[i] == UnitAt(b, i)
    decreases n
  {
    if i + 1 < n {
      UnitsOfAt(b, n - 1, i);
    }
  }

  lemma FromUnitsStep(us: seq<nat>, i: nat, wide: bool)
    requires i <= |us|
    ensures FromUnits(us[i..], wide) ==
      if i == |us| then []
      else if wide && High(us[i]) && i + 1 < |us| && Low(us[i + 1])
      then [Merged(us[i], us[i + 1])] + FromUnits(us[i + 2..], wide)
      else [us[i]] + FromUnits(us[i + 1..], wide)
  {
    if i < |us| {
      assert us[i..][1..] == us[i + 1..];
      if i + 1 < |us| {
        assert us[i..][2..] == us[i + 2..];
      }
    }
  }

  lemma {:induction false} ScalarsNarrow(cs: seq<nat>)
    requires AllScalar(cs)
    ensures AllUnits(WidenAll(cs, false))
    decreases |cs|
  {
    if cs != [] {
      ScalarsNarrow(cs[1..]);
    }
  }

  lemma {:induction false} NoneBeyond(s: seq<nat>, wide: bool)
    requires forall i :: 0 <= i < |s| ==> s[i] <= 0x10FFFF
    ensures Beyond(s, wide) == 0
  {
    if s != [] {
      NoneBeyond(s[1..], wide);
    }
  }

  lemma UnitsAreBelow(us: seq<nat>)
    requires AllUnits(us)
    ensures forall i :: 0 <= i < |us| ==> us[i] <= 0x10FFFF
  {
  }

  /** Whatever bytes a text was made from, it is written with one terminating 0 unit,
      and its units, read back from their bytes, give the same text. */
  lemma TextComesBack(s: Buffer, wide: bool, rest: Buffer)
    ensures AllScalar(Characters(s, 0))
    ensures var text := WidenAll(Characters(s, 0), wide); var us := Units(text, wide);
      && Wide(text, wide) && Beyond(text, wide) == 0 && AllUnits(us)
      && FromUnits(UnitsOf(UnitBytes(us) + rest, |us|), wide) == text
  {
    hide Characters, UnitAt, UnitBytes;
    var cs := Characters(s, 0);
    CharactersScalar(s, 0);
    var text := WidenAll(cs, wide);
    if wide {
      ScalarsCarried(cs);
      WideRoundTrip(cs);
    } else {
      ScalarsNarrow(cs);
      NarrowRoundTrip(text);
      UnitsAreBelow(text);
    }
    NoneBeyond(text, wide);
    UnitsFit(text, wide);
    var us := Units(text, wide);
    BytesComeBack(us, rest, |us|);
    assert us[..|us|] == us;
  }
}
