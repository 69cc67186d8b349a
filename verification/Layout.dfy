/** How a heap lies in its arena: the control fields at the front of each block,
    the boundary tag at the end of a free one, and when bytes mirror a heap. */
module Layout {
  import opened Bytes
  import opened HeapModel

  const FOOT_MAGIC: nat := 0x46544246

  // ---- the flag byte: addressing mode, type, allocated, linked -------------------

  function AddressCode(w: nat): nat { if w == 2 then 1 else if w == 4 then 2 else 3 }

  function Flags(address: nat, typ: nat, alloc: bool, linked: bool): nat {
    address + 4 * typ + (if alloc then 64 else 0) + (if linked then 128 else 0)
  }

  function AddressBits(d: nat): nat { d % 4 }

  function TypeBits(d: nat): nat { d / 4 % 16 }

  predicate AllocBit(d: nat) { d / 64 % 2 == 1 }

  predicate LinkedBit(d: nat) { d / 128 % 2 == 1 }

  lemma FlagsRead(address: nat, typ: nat, alloc: bool, linked: bool)
    requires address < 4 && typ < 16
    ensures var d := Flags(address, typ, alloc, linked);
      d < 256 && AddressBits(d) == address && TypeBits(d) == typ
      && (AllocBit(d) <==> alloc) && (LinkedBit(d) <==> linked)
  {
  }

  // Free blocks are allocated, linked and of no type.
  function KindFlags(w: nat, k: Kind): nat {
    match k
    case Free => Flags(AddressCode(w), 0, true, true)
    case Live(typ, linked) => Flags(AddressCode(w), typ, true, linked)
  }

  // ---- control fields ----------------------------------------------------------

  datatype Control = Control(flags: nat, size: nat, prev: nat, next: nat)

  function ControlSize(w: nat): nat { 1 + 3 * w }

  function Ctl(m: Buffer, w: nat, a: nat): Control {
    Control(Get(m, a, 1), Get(m, a + 1, w), Get(m, a + 1 + w, w), Get(m, a + 1 + 2 * w, w))
  }

  // The size field as the code reads it: through 32 bits.
  function SizeRead(m: Buffer, w: nat, a: nat): nat {
    var n := Get(m, a + 1, w);
    if w == 8 then n % 0x1_0000_0000 else n
  }

  function SetFlags(m: Buffer, a: nat, d: nat): Buffer { Put(m, a, 1, d) }

  function SetSize(m: Buffer, w: nat, a: nat, v: nat): Buffer { Put(m, a + 1, w, v) }

  function SetPrev(m: Buffer, w: nat, a: nat, v: nat): Buffer { Put(m, a + 1 + w, w, v) }

  function SetNext(m: Buffer, w: nat, a: nat, v: nat): Buffer { Put(m, a + 1 + 2 * w, w, v) }

  // r is m with the control fields at a set to c and nothing else changed.
  ghost predicate Rewrites(m: Buffer, r: Buffer, w: nat, a: nat, c: Control) {
    Ctl(r, w, a) == c && SameOutside(m, r, a, a + ControlSize(w))
  }

  lemma PutFlags(m: Buffer, w: nat, a: nat, d: nat)
    requires a + ControlSize(w) <= |m| && d < 256
    ensures Rewrites(m, SetFlags(m, a, d), w, a, Ctl(m, w, a).(flags := d))
    ensures SameOutside(m, SetFlags(m, a, d), a, a + 1)
  {
    hide Get, Put, Encode;
    assert Range(1) == 256;
    PutGet(m, a, 1, d);
    var r := SetFlags(m, a, d);
    GetSame(m, r, a + 1, w);
    GetSame(m, r, a + 1 + w, w);
    GetSame(m, r, a + 1 + 2 * w, w);
  }

  lemma PutSize(m: Buffer, w: nat, a: nat, v: nat)
    requires a + ControlSize(w) <= |m| && v < Range(w)
    ensures Rewrites(m, SetSize(m, w, a, v), w, a, Ctl(m, w, a).(size := v))
  {
    hide Get, Put, Encode, Range;
    PutGet(m, a + 1, w, v);
    var r := SetSize(m, w, a, v);
    GetSame(m, r, a, 1);
    GetSame(m, r, a + 1 + w, w);
    GetSame(m, r, a + 1 + 2 * w, w);
  }

  lemma PutPrev(m: Buffer, w: nat, a: nat, v: nat)
    requires a + ControlSize(w) <= |m| && v < Range(w)
    ensures Rewrites(m, SetPrev(m, w, a, v), w, a, Ctl(m, w, a).(prev := v))
    ensures SameOutside(m, SetPrev(m, w, a, v), a + HeaderSize(w), a + ControlSize(w))
  {
    hide Get, Put, Encode, Range;
    PutGet(m, a + 1 + w, w, v);
    var r := SetPrev(m, w, a, v);
    GetSame(m, r, a, 1);
    GetSame(m, r, a + 1, w);
    GetSame(m, r, a + 1 + 2 * w, w);
  }

  lemma PutNext(m: Buffer, w: nat, a: nat, v: nat)
    requires a + ControlSize(w) <= |m| && v < Range(w)
    ensures Rewrites(m, SetNext(m, w, a, v), w, a, Ctl(m, w, a).(next := v))
    ensures SameOutside(m, SetNext(m, w, a, v), a + HeaderSize(w), a + ControlSize(w))
  {
    hide Get, Put, Encode, Range;
    PutGet(m, a + 1 + 2 * w, w, v);
    var r := SetNext(m, w, a, v);
    GetSame(m, r, a, 1);
    GetSame(m, r, a + 1, w);
    GetSame(m, r, a + 1 + w, w);
  }

  lemma CtlSame(m: Buffer, r: Buffer, w: nat, b: nat)
    requires SameOn(m, r, b, b + ControlSize(w))
    ensures Ctl(m, w, b) == Ctl(r, w, b)
  {
    hide Get;
    GetSame(m, r, b, 1);
    GetSame(m, r, b + 1, w);
    GetSame(m, r, b + 1 + w, w);
    GetSame(m, r, b + 1 + 2 * w, w);
  }

  // ---- boundary tags -------------------------------------------------------------

  // The size a tag ending at e names, or 0 if there is no tag there.
  function FootAt(m: Buffer, e: nat): nat {
    if FOOT <= e && Get(m, e - FOOT, 4) == FOOT_MAGIC then Get(m, e - 8, 8) else 0
  }

  function SetFoot(m: Buffer, e: nat, size: nat): Buffer
    requires FOOT <= e
  {
    Put(Put(m, e - FOOT, 4, FOOT_MAGIC), e - 8, 8, size)
  }

  lemma PutFoot(m: Buffer, e: nat, size: nat)
    requires FOOT <= e <= |m| && size < Range(8)
    ensures FootAt(SetFoot(m, e, size), e) == size
    ensures SameOutside(m, SetFoot(m, e, size), e - FOOT, e)
  {
    assert Range(4) == 0x1_0000_0000;
    PutGet(m, e - FOOT, 4, FOOT_MAGIC);
    var r := Put(m, e - FOOT, 4, FOOT_MAGIC);
    PutGet(r, e - 8, 8, size);
    GetSame(r, SetFoot(m, e, size), e - FOOT, 4);
  }

  lemma FootSame(m: Buffer, r: Buffer, e: nat)
    requires FOOT <= e && SameOn(m, r, e - FOOT, e)
    ensures FootAt(m, e) == FootAt(r, e)
  {
    GetSame(m, r, e - FOOT, 4);
    GetSame(m, r, e - 8, 8);
  }

  /** The format in numbers, for fields of 2, 4 and 8 bytes. */
  lemma FormatNumbers(typ: nat, linked: bool)
    ensures BASE == 48 && FOOT == 12
    ensures HeaderSize(2) == 3 && HeaderSize(4) == 5 && HeaderSize(8) == 9
    ensures MinBlock(2) == 8 && MinBlock(4) == 14 && MinBlock(8) == 26
    ensures FootMin(2) == 20 && FootMin(4) == 26 && FootMin(8) == 38
    ensures MaxAddress(2) == 65535 && MaxAddress(4) == MaxAddress(8) == 4294967295
    ensures KindFlags(2, Free) == 193 && KindFlags(4, Free) == 194 && KindFlags(8, Free) == 195
    ensures KindFlags(2, Live(typ, linked)) == 65 + 4 * typ + if linked then 128 else 0
    ensures KindFlags(4, Live(typ, linked)) == 66 + 4 * typ + if linked then 128 else 0
    ensures KindFlags(8, Live(typ, linked)) == 67 + 4 * typ + if linked then 128 else 0
  {
  }

  // ---- records in the block's own addressing mode ------------------------------------

  function WidthOf(address: nat): nat { if address <= 1 then 2 else if address == 2 then 4 else 8 }

  // The least record of an addressing mode: 8, 16, 32 or 64-bit fields.
  function MinRecord(address: nat): nat {
    if address == 0 then MinBlock(1) else if address == 1 then MinBlock(2)
    else if address == 2 then MinBlock(4) else MinBlock(8)
  }

  // The record at a, as large as its own addressing mode makes it, lies in the arena.
  predicate RecordFits(m: Buffer, end: nat, a: nat) {
    a != 0 && a < end && a + MinRecord(AddressBits(Get(m, a, 1))) <= end
  }

  // At a, which is not 0, the least record of a block of width w lies in the first end
  // bytes, and its flag byte is that of an allocated, linked and typed one.
  predicate ReadsInUse(m: Buffer, end: nat, w: nat, a: nat) {
    && 0 < a && a + 3 * w + 2 <= end <= |m|
    && m[a] % 4 == (if w == 2 then 1 else if w == 4 then 2 else 3)
    && m[a] / 4 % 16 != 0 && m[a] / 64 == 3
  }

  lemma FlagByte(m: Buffer, a: nat)
    requires a < |m|
    ensures Get(m, a, 1) == m[a]
  {
    GetNext(m, a, 1);
    assert m[a + 1..a + 1] == [];
  }

  lemma InUseReads(m: Buffer, w: nat, a: nat)
    requires ValidWidth(w)
    ensures ReadsInUse(m, |m|, w, a) <==>
      var d := Get(m, a, 1);
      RecordFits(m, |m|, a) && AllocBit(d) && LinkedBit(d) && TypeBits(d) != 0 && AddressBits(d) == AddressCode(w)
  {
    hide Get;
    if a < |m| {
      FlagByte(m, a);
    }
  }
}
