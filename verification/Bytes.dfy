/** Unsigned little-endian fields in a byte buffer. */
module Bytes {

  type Byte = x: nat | x < 256

  type Buffer = seq<Byte>

  function Range(w: nat): nat { if w == 0 then 1 else 256 * Range(w - 1) }

  function Decode(b: Buffer): nat {
    if b == [] then 0 else b[0] + 256 * Decode(b[1..])
  }

  function Encode(v: nat, w: nat): (b: Buffer)
    ensures |b| == w
  {
    if w == 0 then [] else [v % 256] + Encode(v / 256, w - 1)
  }

  lemma {:induction false} EncodeDecode(v: nat, w: nat)
    requires v < Range(w)
    ensures Decode(Encode(v, w)) == v
  {
    if w > 0 {
      EncodeDecode(v / 256, w - 1);
      assert Encode(v, w)[1..] == Encode(v / 256, w - 1);
    }
  }

  // The w-byte field at off; fields that leave the buffer read as 0.
  function Get(m: Buffer, off: nat, w: nat): nat {
    if off + w <= |m| then Decode(m[off..off + w]) else 0
  }

  function Put(m: Buffer, off: nat, w: nat, v: nat): (r: Buffer)
    ensures |r| == |m|
  {
    if off + w <= |m| then m[..off] + Encode(v, w) + m[off + w..] else m
  }

  // The two buffers differ at most in [lo, hi).
  ghost predicate SameOutside(m: Buffer, r: Buffer, lo: nat, hi: nat) {
    |m| == |r| && forall i :: 0 <= i < |m| && (i < lo || hi <= i) ==> m[i] == r[i]
  }

  ghost predicate SameOn(m: Buffer, r: Buffer, lo: nat, hi: nat) {
    hi <= |m| && hi <= |r| && forall i :: lo <= i < hi ==> m[i] == r[i]
  }

  lemma PutGet(m: Buffer, off: nat, w: nat, v: nat)
    requires off + w <= |m| && v < Range(w)
    ensures Get(Put(m, off, w, v), off, w) == v
    ensures SameOutside(m, Put(m, off, w, v), off, off + w)
  {
    EncodeDecode(v, w);
    assert Put(m, off, w, v)[off..off + w] == Encode(v, w);
  }

  lemma GetSame(m: Buffer, r: Buffer, off: nat, w: nat)
    requires SameOn(m, r, off, off + w)
    ensures Get(m, off, w) == Get(r, off, w)
  {
    assert m[off..off + w] == r[off..off + w];
  }

  lemma Shift(d: nat, lo: nat, r: nat, hi: nat)
    ensures d + 256 * (lo + r * hi) == (d + 256 * lo) + 256 * r * hi
  {
    assert 256 * (r * hi) == 256 * r * hi;
  }

  lemma {:induction false} DecodeSplit(b: Buffer, k: nat)
    requires k <= |b|
    ensures Decode(b) == Decode(b[..k]) + Range(k) * Decode(b[k..]) && Decode(b[..k]) < Range(k)
  {
    if k > 0 {
      var lo, hi := b[1..][..k - 1], b[k..];
      DecodeSplit(b[1..], k - 1);
      assert b[..k][1..] == lo && b[1..][k - 1..] == hi;
      Shift(b[0], Decode(lo), Range(k - 1), Decode(hi));
    } else {
      assert b[..0] == [] && b[0..] == b;
    }
  }

  /** The low k bytes of a field are its remainder, the others its quotient. */
  lemma GetSplit(m: Buffer, off: nat, w: nat, k: nat)
    requires off + w <= |m| && k <= w
    ensures Get(m, off, w) == Get(m, off, k) + Range(k) * Get(m, off + k, w - k)
    ensures Get(m, off, k) < Range(k)
  {
    var b := m[off..off + w];
    assert b[..k] == m[off..off + k] && b[k..] == m[off + k..off + w];
    DecodeSplit(b, k);
  }

  // The first byte of a field and the others.
  lemma GetNext(m: Buffer, off: nat, w: nat)
    requires off + w <= |m| && 0 < w
    ensures Get(m, off, w) == m[off] + 256 * Get(m, off + 1, w - 1)
  {
    assert m[off..off + w][1..] == m[off + 1..off + w];
  }

  lemma {:induction false} DecodeInjective(b: Buffer, c: Buffer)
    requires |b| == |c| && Decode(b) == Decode(c)
    ensures b == c
  {
    if b != [] {
      assert b[0] == c[0];
      DecodeInjective(b[1..], c[1..]);
      assert b == [b[0]] + b[1..] && c == [c[0]] + c[1..];
    }
  }

  /** A field that reads the same has the same bytes. */
  lemma GetBytes(m: Buffer, r: Buffer, off: nat, w: nat)
    requires off + w <= |m| && off + w <= |r| && Get(m, off, w) == Get(r, off, w)
    ensures SameOn(m, r, off, off + w)
  {
    DecodeInjective(m[off..off + w], r[off..off + w]);
    forall i | off <= i < off + w
      ensures m[i] == r[i]
    {
      assert m[i] == m[off..off + w][i - off] && r[i] == r[off..off + w][i - off];
    }
  }

  function Zeros(n: nat): Buffer { seq(n, _ => 0) }
}
