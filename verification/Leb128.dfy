/** kern/libdwarf_rw.c: variable-length integers (section 7.6 of DWARF Version 4), with the
    shifts done in C's int as the decoders do them. */
module Leb128 {
  type Byte = bv8

  /** Memory from some base on; bytes past the end of what is known read as zero. */
  function At(m: seq<Byte>, i: nat): Byte { if i < |m| then m[i] else 0 }

  predicate More(b: Byte) { b & 0x80 != 0 }

  /** An int converted to a 64-bit integer. */
  function Extend(x: bv32): bv64 {
    if x & 0x8000_0000 != 0 then (x as bv64) | 0xFFFF_FFFF_0000_0000 else x as bv64
  }

  /** (b & 0x7f) << shift in an int; the processor takes the count modulo 32. */
  function Group(b: Byte, shift: nat): bv64 {
    Extend(Shl32(Seven(b), shift % 32))
  }

  /** A left shift in an int, with the counts of the first five groups told apart. */
  function Shl32(x: bv32, k: nat): bv32
    requires k < 32
  {
    if k == 0 then x else if k == 7 then x << 7 else if k == 14 then x << 14 else if k == 21 then x << 21
    else if k == 28 then x << 28 else x << k
  }

  function Seven(b: Byte): bv32 { (b & 0x7f) as bv32 }

  function Or(a: bv64, b: bv64): bv64 { a | b }

  /** The decoding loop from byte i on: the value so far or-ed with the remaining groups, the
      index after the last byte, and the final shift. */
  function Groups(m: seq<Byte>, i: nat, shift: nat, acc: bv64): (bv64, nat, nat)
    decreases |m| - i
  {
    var acc' := Or(acc, Group(At(m, i), shift));
    if More(At(m, i)) && i < |m| then Groups(m, i + 1, shift + 7, acc') else (acc', i + 1, shift + 7)
  }

  function Uleb(m: seq<Byte>, i: nat): (bv64, nat) {
    var (v, j, _) := Groups(m, i, 0, 0);
    (v, j)
  }

  function Signed(acc: bv64, shift: nat, last: Byte): bv64 {
    if shift < 32 && last & 0x40 != 0 then acc | Extend((0xFFFF_FFFF as bv32) << shift) else acc
  }

  function Sleb(m: seq<Byte>, i: nat): (bv64, nat) {
    var (v, j, shift) := Groups(m, i, 0, 0);
    (Signed(v, shift, if j > 0 then At(m, j - 1) else 0), j)
  }

  /** Decoding goes forward, and at most one byte past the end of what is known. */
  lemma {:induction false} GroupsPlace(m: seq<Byte>, i: nat, shift: nat, acc: bv64)
    ensures i < Groups(m, i, shift, acc).1 <= (if i < |m| then |m| else i) + 1
    decreases |m| - i
  {
    hide Group, Or, More;
    if More(At(m, i)) && i < |m| { GroupsPlace(m, i + 1, shift + 7, Or(acc, Group(At(m, i), shift))); }
  }

  lemma SlebIs(m: seq<Byte>, i: nat, v: bv64, j: nat, shift: nat)
    requires Groups(m, i, 0, 0) == (v, j + 1, shift)
    ensures Sleb(m, i) == (Signed(v, shift, At(m, j)), j + 1)
  {
  }

  lemma GroupsEnd(m: seq<Byte>, i: nat, shift: nat, acc: bv64)
    requires !More(At(m, i))
    ensures Groups(m, i, shift, acc) == (Or(acc, Group(At(m, i), shift)), i + 1, shift + 7)
  {
  }

  lemma GroupsNext(m: seq<Byte>, i: nat, shift: nat, acc: bv64)
    requires More(At(m, i))
    ensures i < |m| && Groups(m, i, shift, acc) == Groups(m, i + 1, shift + 7, Or(acc, Group(At(m, i), shift)))
  {
  }

  // ---------------------------------------------------------------- the four decoders

  /** _dwarf_read_uleb128: from data + *offsetp, advancing the offset byte by byte. */
  method ReadUleb(data: seq<Byte>, offset: nat) returns (ret: bv64, offset': nat)
    ensures (ret, offset') == Uleb(data, offset)
  {
    hide Group, Signed, More, At, Groups, Or;
    var shift: nat, src: nat := 0, offset;
    ret, offset' := 0, offset;
    var b := At(data, src);
    while More(b)
      invariant src == offset' && b == At(data, src) && Groups(data, src, shift, ret) == Groups(data, offset, 0, 0)
      decreases |data| - src
    {
      GroupsNext(data, src, shift, ret);
      ret := Or(ret, Group(b, shift));
      offset' := offset' + 1;
      src, shift := src + 1, shift + 7;
      b := At(data, src);
    }
    GroupsEnd(data, src, shift, ret);
    ret := Or(ret, Group(b, shift));
    offset' := offset' + 1;
  }

  /** _dwarf_read_sleb128. */
  method ReadSleb(data: seq<Byte>, offset: nat) returns (ret: bv64, offset': nat)
    ensures (ret, offset') == Sleb(data, offset)
  {
    hide Group, Signed, More, At, Groups, Sleb, Or;
    var shift: nat, src: nat := 0, offset;
    ret, offset' := 0, offset;
    var b := At(data, src);
    while More(b)
      invariant src == offset' && b == At(data, src) && Groups(data, src, shift, ret) == Groups(data, offset, 0, 0)
      decreases |data| - src
    {
      GroupsNext(data, src, shift, ret);
      ret := Or(ret, Group(b, shift));
      offset' := offset' + 1;
      src, shift := src + 1, shift + 7;
      b := At(data, src);
    }
    GroupsEnd(data, src, shift, ret);
    ret := Or(ret, Group(b, shift));
    offset' := offset' + 1;
    SlebIs(data, offset, ret, src, shift + 7);
    ret := Signed(ret, shift + 7, b);
  }

  /** _dwarf_decode_uleb128: from *dp, advancing the pointer once at the end. */
  method DecodeUleb(m: seq<Byte>, dp: nat) returns (ret: bv64, dp': nat)
    ensures (ret, dp') == Uleb(m, dp)
  {
    hide Group, Signed, More, At, Groups, Or;
    var shift: nat, src: nat := 0, dp;
    ret := 0;
    var b := At(m, src);
    while More(b)
      invariant b == At(m, src) && Groups(m, src, shift, ret) == Groups(m, dp, 0, 0)
      decreases |m| - src
    {
      GroupsNext(m, src, shift, ret);
      ret := Or(ret, Group(b, shift));
      src, shift := src + 1, shift + 7;
      b := At(m, src);
    }
    GroupsEnd(m, src, shift, ret);
    ret := Or(ret, Group(b, shift));
    dp' := src + 1;
  }

  /** _dwarf_decode_sleb128. */
  method DecodeSleb(m: seq<Byte>, dp: nat) returns (ret: bv64, dp': nat)
    ensures (ret, dp') == Sleb(m, dp)
  {
    hide Group, Signed, More, At, Groups, Sleb, Or;
    var shift: nat, src: nat := 0, dp;
    ret := 0;
    var b := At(m, src);
    while More(b)
      invariant b == At(m, src) && Groups(m, src, shift, ret) == Groups(m, dp, 0, 0)
      decreases |m| - src
    {
      GroupsNext(m, src, shift, ret);
      ret := Or(ret, Group(b, shift));
      src, shift := src + 1, shift + 7;
      b := At(m, src);
    }
    GroupsEnd(m, src, shift, ret);
    ret := Or(ret, Group(b, shift));
    dp' := src + 1;
    SlebIs(m, dp, ret, src, shift + 7);
    ret := Signed(ret, shift + 7, b);
  }

  // ---------------------------------------------------------------- encoding

  function EncodeU(v: bv64): (e: seq<Byte>)
    ensures |e| > 0
    decreases v
  {
    if v < 0x80 then [v as bv8] else [((v & 0x7f) as bv8) | 0x80] + EncodeU(v >> 7)
  }

  /** Arithmetic shift right by seven. */
  function Asr7(v: bv64): bv64 {
    if v & 0x8000_0000_0000_0000 != 0 then (v >> 7) | 0xFE00_0000_0000_0000 else v >> 7
  }

  function EncodeS(v: bv64): (e: seq<Byte>)
    ensures |e| > 0
    decreases if v & 0x8000_0000_0000_0000 != 0 then !v else v
  {
    var b := (v & 0x7f) as bv8;
    var rest := Asr7(v);
    if (rest == 0 && b & 0x40 == 0) || (rest == 0xFFFF_FFFF_FFFF_FFFF && b & 0x40 != 0) then [b]
    else [b | 0x80] + EncodeS(rest)
  }

  /** The bytes e stand at index i of m. */
  ghost predicate Stands(m: seq<Byte>, i: nat, e: seq<Byte>) {
    i + |e| <= |m| && m[i..i + |e|] == e
  }

  lemma StandsAt(m: seq<Byte>, i: nat, e: seq<Byte>, k: nat)
    requires Stands(m, i, e) && k < |e|
    ensures At(m, i + k) == e[k]
  {
    assert m[i..i + |e|][k] == m[i + k];
  }

  /** Every byte but the last has the continuation bit. */
  ghost predicate Terminated(e: seq<Byte>) {
    |e| > 0 && !More(e[|e| - 1]) && forall k :: 0 <= k < |e| - 1 ==> More(e[k])
  }

  function Fold(e: seq<Byte>, shift: nat, acc: bv64): bv64 {
    if e == [] then acc else Fold(e[1..], shift + 7, Or(acc, Group(e[0], shift)))
  }

  function FoldS(e: seq<Byte>, shift: nat, acc: bv64): bv64
    requires |e| > 0
  {
    Signed(Fold(e, shift, acc), shift + 7 * |e|, e[|e| - 1])
  }

  /** The decoding loop reads a terminated sequence exactly to its end. */
  lemma {:induction false} GroupsFold(m: seq<Byte>, i: nat, e: seq<Byte>, shift: nat, acc: bv64)
    requires Stands(m, i, e) && Terminated(e)
    ensures Groups(m, i, shift, acc) == (Fold(e, shift, acc), i + |e|, shift + 7 * |e|)
    decreases |e|
  {
    hide Group, More, At, Groups, Or;
    StandsAt(m, i, e, 0);
    if |e| == 1 {
      GroupsEnd(m, i, shift, acc);
      assert e[1..] == [];
    } else {
      GroupsNext(m, i, shift, acc);
      assert m[i + 1..i + |e|] == m[i..i + |e|][1..];
      GroupsFold(m, i + 1, e[1..], shift + 7, Or(acc, Group(e[0], shift)));
    }
  }

  /** A continued byte with the low seven bits of v. */
  function Low(v: bv64): Byte { ((v & 0x7f) as bv8) | 0x80 }

  lemma EncodeUStep(v: bv64)
    ensures EncodeU(v) == if v < 0x80 then [v as bv8] else [Low(v)] + EncodeU(v >> 7)
    ensures More(Low(v)) && (v < 0x80 ==> !More(v as bv8)) && (v >= 0x80 ==> v >> 7 < v)
  {
  }

  lemma {:induction false} EncodeUTerminated(v: bv64)
    ensures Terminated(EncodeU(v))
    decreases v
  {
    hide More, EncodeU, Low;
    EncodeUStep(v);
    if v >= 0x80 { EncodeUTerminated(v >> 7); }
  }

  /** One byte is enough for v. */
  predicate Short(v: bv64) {
    v < 0x40 || v >= 0xFFFF_FFFF_FFFF_FFC0
  }

  /** How far v is from zero or minus one. */
  function Size(v: bv64): bv64 { if v & 0x8000_0000_0000_0000 != 0 then !v else v }

  lemma EncodeSStep(v: bv64)
    ensures EncodeS(v) == if Short(v) then [(v & 0x7f) as bv8] else [Low(v)] + EncodeS(Asr7(v))
    ensures More(Low(v)) && !More((v & 0x7f) as bv8) && (!Short(v) ==> Size(Asr7(v)) < Size(v))
  {
  }

  lemma {:induction false} EncodeSTerminated(v: bv64)
    ensures Terminated(EncodeS(v))
    decreases Size(v)
  {
    hide More, EncodeS, Low, Size, Asr7, Short;
    EncodeSStep(v);
    if !Short(v) { EncodeSTerminated(Asr7(v)); }
  }

  lemma FoldCons(b: Byte, e: seq<Byte>, shift: nat, acc: bv64)
    ensures Fold([b] + e, shift, acc) == Fold(e, shift + 7, Or(acc, Group(b, shift)))
    ensures Fold([b], shift, acc) == Or(acc, Group(b, shift))
  {
    hide Or, Group;
    assert ([b] + e)[1..] == e;
    assert [b][1..] == [];
  }

  // ---------------------------------------------------------------- what the int shifts leave of a value

  function And(a: bv64, b: bv64): bv64 { a & b }

  predicate Neg(x: bv64) { x & 0x8000_0000 != 0 }
  function Up(x: bv64): bv64 { x | 0xFFFF_FFFF_0000_0000 }
  function Down(x: bv64): bv64 { x & 0xFFFF_FFFF }

  /** The low 32 bits, taken as an int. */
  function Int(x: bv64): bv64 { if Neg(x) then Up(x) else Down(x) }

  /** The groups of a five-byte encoding. */
  predicate IsShift(s: nat) { s == 0 || s == 7 || s == 14 || s == 21 || s == 28 }

  function Shl(w: bv64, s: nat): bv64 {
    if s == 0 then w else if s == 7 then w << 7 else if s == 14 then w << 14 else if s == 21 then w << 21 else w << 28
  }

  /** The seven bits of the group at shift s, and all bits above it. */
  function Here(s: nat): bv64 {
    if s == 0 then 0x7F else if s == 7 then 0x3F80 else if s == 14 then 0x1F_C000 else 0xFE0_0000
  }

  function Above(s: nat): bv64 {
    if s == 0 then 0xFFFF_FFFF_FFFF_FF80 else if s == 7 then 0xFFFF_FFFF_FFFF_C000
    else if s == 14 then 0xFFFF_FFFF_FFE0_0000 else 0xFFFF_FFFF_F000_0000
  }

  lemma OrAssoc(a: bv64, b: bv64, c: bv64)
    ensures Or(Or(a, b), c) == Or(a, Or(b, c))
  {
  }

  lemma NegAbove(x: bv64, h: bv64)
    requires h & 0x8000_0000 == 0x8000_0000
    ensures Neg(And(x, h)) == Neg(x)
  {
  }

  lemma UpParts(x: bv64, m: bv64, h: bv64)
    requires x == (x & m) | (x & h)
    ensures Or(And(x, m), Up(And(x, h))) == Up(x)
  {
  }

  lemma DownParts(x: bv64, m: bv64, h: bv64)
    requires x == (x & m) | (x & h) && m & 0xFFFF_FFFF == m
    ensures Or(And(x, m), Down(And(x, h))) == Down(x)
  {
  }

  /** Taking a value apart below the sign bit and converting the upper part converts the value. */
  lemma IntParts(x: bv64, m: bv64, h: bv64)
    requires x == (x & m) | (x & h) && m & 0xFFFF_FFFF == m && h & 0x8000_0000 == 0x8000_0000
    ensures Or(And(x, m), Int(And(x, h))) == Int(x)
  {
    hide Neg, Up, Down, Or, And;
    NegAbove(x, h);
    if Neg(x) { UpParts(x, m, h); } else { DownParts(x, m, h); }
  }

  lemma Masks(w: bv64, s: nat)
    requires IsShift(s) && s < 28
    ensures Here(s) & 0xFFFF_FFFF == Here(s) && Above(s) & 0x8000_0000 == 0x8000_0000
    ensures Shl(w, s) == (Shl(w, s) & Here(s)) | (Shl(w, s) & Above(s))
  {
  }

  /** The group taken from w and what is left of w, both at their places. */
  lemma Parts(w: bv64, s: nat)
    requires IsShift(s) && s < 28
    ensures Group(Low(w), s) == And(Shl(w, s), Here(s))
    ensures Shl(w >> 7, s + 7) == And(Shl(w, s), Above(s))
    ensures Shl(Asr7(w), s + 7) == And(Shl(w, s), Above(s))
  {
    hide Group, Low, Shl, And, Here, Above, Asr7;
    if s == 0 { LowGroup0(w); Rest0(w); } else if s == 7 { LowGroup7(w); Rest7(w); }
    else if s == 14 { LowGroup14(w); Rest14(w); } else { LowGroup21(w); Rest21(w); }
  }

  function LowSeven(w: bv64): bv32 { (w & 0x7f) as bv32 }

  lemma SevenOf(w: bv64)
    ensures Seven(Low(w)) == LowSeven(w) && Seven((w & 0x7f) as bv8) == LowSeven(w)
    ensures w < 0x80 ==> Seven(w as bv8) == LowSeven(w)
  {
  }

  lemma LowGroup0(w: bv64)
    ensures Group(Low(w), 0) == And(Shl(w, 0), Here(0))
  {
    hide Low, Seven, LowSeven, Extend, And, Shl, Here, Shl32;
    SevenOf(w);
    Placed0(w);
  }

  lemma Placed0(w: bv64)
    ensures Extend(Shl32(LowSeven(w), 0)) == And(Shl(w, 0), Here(0))
  {
  }

  lemma Rest0(w: bv64)
    ensures Shl(w >> 7, 7) == And(Shl(w, 0), Above(0)) && Shl(Asr7(w), 7) == And(Shl(w, 0), Above(0))
  {
    hide Shl, And, Above, Asr7;
    Shifted0(w);
    if w & 0x8000_0000_0000_0000 != 0 { Negative0(w); } else { Positive0(w); }
  }

  lemma Shifted0(w: bv64)
    ensures Shl(w >> 7, 7) == And(Shl(w, 0), Above(0))
  {
  }

  lemma Negative0(w: bv64)
    requires w & 0x8000_0000_0000_0000 != 0
    ensures Shl(Asr7(w), 7) == And(Shl(w, 0), Above(0))
  {
  }

  lemma Positive0(w: bv64)
    requires w & 0x8000_0000_0000_0000 == 0
    ensures Asr7(w) == w >> 7
  {
  }

  lemma LowGroup7(w: bv64)
    ensures Group(Low(w), 7) == And(Shl(w, 7), Here(7))
  {
    hide Low, Seven, LowSeven, Extend, And, Shl, Here, Shl32;
    SevenOf(w);
    Placed7(w);
  }

  lemma Placed7(w: bv64)
    ensures Extend(Shl32(LowSeven(w), 7)) == And(Shl(w, 7), Here(7))
  {
  }

  lemma Rest7(w: bv64)
    ensures Shl(w >> 7, 14) == And(Shl(w, 7), Above(7)) && Shl(Asr7(w), 14) == And(Shl(w, 7), Above(7))
  {
  }

  lemma LowGroup14(w: bv64)
    ensures Group(Low(w), 14) == And(Shl(w, 14), Here(14))
  {
    hide Low, Seven, LowSeven, Extend, And, Shl, Here, Shl32;
    SevenOf(w);
    Placed14(w);
  }

  lemma Placed14(w: bv64)
    ensures Extend(Shl32(LowSeven(w), 14)) == And(Shl(w, 14), Here(14))
  {
  }

  lemma Rest14(w: bv64)
    ensures Shl(w >> 7, 21) == And(Shl(w, 14), Above(14)) && Shl(Asr7(w), 21) == And(Shl(w, 14), Above(14))
  {
  }

  lemma LowGroup21(w: bv64)
    ensures Group(Low(w), 21) == And(Shl(w, 21), Here(21))
  {
    hide Low, Seven, LowSeven, Extend, And, Shl, Here, Shl32;
    SevenOf(w);
    Placed21(w);
  }

  lemma Placed21(w: bv64)
    ensures Extend(Shl32(LowSeven(w), 21)) == And(Shl(w, 21), Here(21))
  {
  }

  lemma Rest21(w: bv64)
    ensures Shl(w >> 7, 28) == And(Shl(w, 21), Above(21)) && Shl(Asr7(w), 28) == And(Shl(w, 21), Above(21))
  {
  }

  lemma Join(w: bv64, rest: bv64, s: nat, acc: bv64)
    requires IsShift(s) && s < 28 && (rest == w >> 7 || rest == Asr7(w))
    ensures Or(Or(acc, Group(Low(w), s)), Int(Shl(rest, s + 7))) == Or(acc, Int(Shl(w, s)))
  {
    hide Or, Group, Int, Low, Shl, Here, Above, Asr7, And;
    OrAssoc(acc, Group(Low(w), s), Int(Shl(rest, s + 7)));
    Parts(w, s);
    Masks(w, s);
    IntParts(Shl(w, s), Here(s), Above(s));
  }

  // ---------------------------------------------------------------- unsigned values

  /** w fits in the groups from shift s on. */
  predicate FitsU(w: bv64, s: nat) {
    w < (if s == 0 then 0x8_0000_0000 else if s == 7 then 0x1000_0000 else if s == 14 then 0x20_0000 else if s == 21 then 0x4000 else 0x80)
  }

  lemma FitsUNext(w: bv64, s: nat)
    requires IsShift(s) && FitsU(w, s)
    ensures if s < 28 then FitsU(w >> 7, s + 7) else w < 0x80
  {
  }

  lemma OneGroup(w: bv64, s: nat)
    requires IsShift(s) && w < 0x80
    ensures Group(w as bv8, s) == Int(Shl(w, s))
  {
    hide Seven, LowSeven, Extend, Int, Shl32;
    SevenOf(w);
    if s == 0 { One0(w); } else if s == 7 { One7(w); } else if s == 14 { One14(w); } else if s == 21 { One21(w); } else { One28(w); }
  }

  lemma One0(w: bv64)
    requires w < 0x80
    ensures Extend(Shl32(LowSeven(w), 0)) == Int(w)
  {
  }

  lemma One7(w: bv64)
    requires w < 0x80
    ensures Extend(Shl32(LowSeven(w), 7)) == Int(w << 7)
  {
  }

  lemma One14(w: bv64)
    requires w < 0x80
    ensures Extend(Shl32(LowSeven(w), 14)) == Int(w << 14)
  {
  }

  lemma One21(w: bv64)
    requires w < 0x80
    ensures Extend(Shl32(LowSeven(w), 21)) == Int(w << 21)
  {
  }

  lemma One28(w: bv64)
    requires w < 0x80
    ensures Extend(Shl32(LowSeven(w), 28)) == Int(w << 28)
  {
  }

  /** Decoding an unsigned encoding keeps exactly the low 32 bits, taken as an int. */
  lemma {:induction false} FoldU(w: bv64, s: nat, acc: bv64)
    requires IsShift(s) && FitsU(w, s)
    ensures Fold(EncodeU(w), s, acc) == Or(acc, Int(Shl(w, s)))
    decreases 28 - s
  {
    hide Or, Group, Int, Shl, Low, EncodeU, Fold, FitsU;
    EncodeUStep(w);
    FitsUNext(w, s);
    if w < 0x80 {
      OneGroup(w, s);
      FoldCons(w as bv8, [], s, acc);
    } else {
      FoldCons(Low(w), EncodeU(w >> 7), s, acc);
      Join(w, w >> 7, s, acc);
      FoldU(w >> 7, s + 7, Or(acc, Group(Low(w), s)));
    }
  }

  /** x is in [-2^31, 2^31). */
  predicate Ranged(x: bv64) { x + 0x8000_0000 < 0x1_0000_0000 }

  lemma ExtendRanged(x: bv32)
    ensures Ranged(Extend(x))
  {
  }

  lemma OrRanged(a: bv64, b: bv64)
    requires Ranged(a) && Ranged(b)
    ensures Ranged(Or(a, b))
  {
    hide Or;
    OrSigns(a, b);
  }

  lemma OrSigns(a: bv64, b: bv64)
    requires a < 0x8000_0000 || a >= 0xFFFF_FFFF_8000_0000
    requires b < 0x8000_0000 || b >= 0xFFFF_FFFF_8000_0000
    ensures Or(a, b) < 0x8000_0000 || Or(a, b) >= 0xFFFF_FFFF_8000_0000
  {
  }

  /** Whatever is decoded is in the range of an int. */
  lemma {:induction false} FoldRanged(e: seq<Byte>, shift: nat, acc: bv64)
    requires Ranged(acc)
    ensures Ranged(Fold(e, shift, acc))
    decreases |e|
  {
    hide Or, Group, Ranged;
    if e != [] {
      GroupRanged(e[0], shift);
      OrRanged(acc, Group(e[0], shift));
      FoldRanged(e[1..], shift + 7, Or(acc, Group(e[0], shift)));
    }
  }

  lemma GroupRanged(b: Byte, shift: nat)
    ensures Ranged(Group(b, shift))
  {
    hide Extend, Seven, Shl32, Ranged;
    ExtendRanged(Shl32(Seven(b), shift % 32));
  }

  const TOP: bv64 := 0xFFFF_FFFF_FFFF_FFF8

  /** The groups from the sixth on of a value whose upper bits are all ones: shifted by 3, 10, 17, 24
      and 31 they set every bit but the lowest three. */
  lemma TopGroups(acc: bv64)
    ensures Fold(EncodeU(0x1FFF_FFFF), 35, acc) == Or(acc, TOP)
  {
    hide Or, Group, EncodeU, Fold;
    EncodeUStep(0x1FFF_FFFF);
    EncodeUStep(0x3F_FFFF);
    EncodeUStep(0x7FFF);
    EncodeUStep(0xFF);
    EncodeUStep(1);
    var a1 := Or(acc, Group(0xFF, 35));
    var a2 := Or(a1, Group(0xFF, 42));
    var a3 := Or(a2, Group(0xFF, 49));
    var a4 := Or(a3, Group(0xFF, 56));
    FoldCons(0xFF, EncodeU(0x3F_FFFF), 35, acc);
    FoldCons(0xFF, EncodeU(0x7FFF), 42, a1);
    FoldCons(0xFF, EncodeU(0xFF), 49, a2);
    FoldCons(0xFF, EncodeU(1), 56, a3);
    FoldCons(1, [], 63, a4);
    TopBits(acc);
  }

  lemma TopBits(acc: bv64)
    ensures Or(Or(Or(Or(Or(acc, Group(0xFF, 35)), Group(0xFF, 42)), Group(0xFF, 49)), Group(0xFF, 56)), Group(1, 63)) == Or(acc, TOP)
  {
    hide Group, Or;
    UpperGroups();
    UpperOr(acc);
  }

  lemma UpperGroups()
    ensures Group(0xFF, 35) == 0x3F8 && Group(0xFF, 42) == 0x1_FC00 && Group(0xFF, 49) == 0xFE_0000
    ensures Group(0xFF, 56) == 0x7F00_0000 && Group(1, 63) == 0xFFFF_FFFF_8000_0000
  {
    hide Extend, Shl32;
    UpperShifts();
    assert Seven(0xFF) == 0x7F && Seven(1) == 1;
  }

  lemma UpperShifts()
    ensures Extend(Shl32(0x7F, 3)) == 0x3F8 && Extend(Shl32(0x7F, 10)) == 0x1_FC00 && Extend(Shl32(0x7F, 17)) == 0xFE_0000
    ensures Extend(Shl32(0x7F, 24)) == 0x7F00_0000 && Extend(Shl32(1, 31)) == 0xFFFF_FFFF_8000_0000
  {
  }

  lemma UpperOr(acc: bv64)
    ensures Or(Or(Or(Or(Or(acc, 0x3F8), 0x1_FC00), 0xFE_0000), 0x7F00_0000), 0xFFFF_FFFF_8000_0000) == Or(acc, TOP)
  {
  }

  /** Only the first group reaches the lowest three bits. */
  function LowBits(x: bv64): bv64 { x & 7 }

  lemma LowBitsOr(a: bv64, b: bv64)
    ensures LowBits(b) == 0 ==> LowBits(Or(a, b)) == LowBits(a)
    ensures LowBits(Or(0, b)) == LowBits(b)
    ensures Or(a, TOP) == Or(LowBits(a), TOP)
  {
  }

  lemma LowBitsGroup(w: bv64, s: nat)
    requires IsShift(s)
    ensures LowBits(Group(Low(w), s)) == if s == 0 then LowBits(w) else 0
  {
    hide Low, Seven, LowSeven, Extend, Shl32, LowBits;
    SevenOf(w);
    if s == 0 { Bits0(w); } else if s == 7 { Bits7(w); } else if s == 14 { Bits14(w); } else if s == 21 { Bits21(w); } else { Bits28(w); }
  }

  lemma Bits0(w: bv64)
    ensures LowBits(Extend(Shl32(LowSeven(w), 0))) == LowBits(w)
  {
  }

  lemma Bits7(w: bv64)
    ensures LowBits(Extend(Shl32(LowSeven(w), 7))) == 0
  {
  }

  lemma Bits14(w: bv64)
    ensures LowBits(Extend(Shl32(LowSeven(w), 14))) == 0
  {
  }

  lemma Bits21(w: bv64)
    ensures LowBits(Extend(Shl32(LowSeven(w), 21))) == 0
  {
  }

  lemma Bits28(w: bv64)
    ensures LowBits(Extend(Shl32(LowSeven(w), 28))) == 0
  {
  }

  /** The first five of more groups, or-ed, and what they leave of the lowest bits. */
  function Five(v: bv64, w1: bv64, w2: bv64, w3: bv64, w4: bv64): bv64 {
    Or(Or(Or(Or(Or(0, Group(Low(v), 0)), Group(Low(w1), 7)), Group(Low(w2), 14)), Group(Low(w3), 21)), Group(Low(w4), 28))
  }

  lemma FiveLow(v: bv64, w1: bv64, w2: bv64, w3: bv64, w4: bv64)
    ensures LowBits(Five(v, w1, w2, w3, w4)) == LowBits(v)
  {
    hide Or, Group, Low, LowBits;
    var a1 := Or(0, Group(Low(v), 0));
    var a2 := Or(a1, Group(Low(w1), 7));
    var a3 := Or(a2, Group(Low(w2), 14));
    var a4 := Or(a3, Group(Low(w3), 21));
    LowBitsGroup(v, 0);
    LowBitsGroup(w1, 7);
    LowBitsGroup(w2, 14);
    LowBitsGroup(w3, 21);
    LowBitsGroup(w4, 28);
    LowBitsOr(0, Group(Low(v), 0));
    LowBitsOr(a1, Group(Low(w1), 7));
    LowBitsOr(a2, Group(Low(w2), 14));
    LowBitsOr(a3, Group(Low(w3), 21));
    LowBitsOr(a4, Group(Low(w4), 28));
  }

  ghost predicate Longer(v: bv64, w: bv64) { EncodeU(v) == [Low(v)] + EncodeU(w) }

  lemma FiveFold(v: bv64, w1: bv64, w2: bv64, w3: bv64, w4: bv64, rest: bv64)
    requires Longer(v, w1) && Longer(w1, w2) && Longer(w2, w3) && Longer(w3, w4) && Longer(w4, rest)
    ensures Fold(EncodeU(v), 0, 0) == Fold(EncodeU(rest), 35, Five(v, w1, w2, w3, w4))
  {
    hide Or, Group, EncodeU, Fold, Low;
    var a1 := Or(0, Group(Low(v), 0));
    var a2 := Or(a1, Group(Low(w1), 7));
    var a3 := Or(a2, Group(Low(w2), 14));
    FoldCons(Low(v), EncodeU(w1), 0, 0);
    FoldCons(Low(w1), EncodeU(w2), 7, a1);
    FoldCons(Low(w2), EncodeU(w3), 14, a2);
    FoldCons(Low(w3), EncodeU(w4), 21, a3);
    FoldCons(Low(w4), EncodeU(rest), 28, Or(a3, Group(Low(w3), 21)));
  }

  function Rest(v: bv64): bv64 { v >> 7 }

  predicate Long(v: bv64) { v >= 0x80 }

  lemma RestLonger(v: bv64)
    requires Long(v)
    ensures Longer(v, Rest(v))
  {
    hide Low, EncodeU;
    EncodeUStep(v);
  }

  lemma TopRest(v: bv64)
    requires v >= 0xFFFF_FFFF_8000_0000
    ensures Rest(Rest(Rest(Rest(Rest(v))))) == 0x1FFF_FFFF
    ensures Long(v) && Long(Rest(v)) && Long(Rest(Rest(v))) && Long(Rest(Rest(Rest(v)))) && Long(Rest(Rest(Rest(Rest(v)))))
  {
  }

  /** A number just below 2^64 decodes to its lowest three bits under ones. */
  lemma FoldTop(v: bv64)
    requires v >= 0xFFFF_FFFF_8000_0000
    ensures Fold(EncodeU(v), 0, 0) == Or(LowBits(v), TOP)
  {
    hide Or, EncodeU, Fold, Low, LowBits, Five, Rest, Long, Longer;
    TopRest(v);
    var w1 := Rest(v);
    var w2 := Rest(w1);
    var w3 := Rest(w2);
    var w4 := Rest(w3);
    RestLonger(v);
    RestLonger(w1);
    RestLonger(w2);
    RestLonger(w3);
    RestLonger(w4);
    FiveFold(v, w1, w2, w3, w4, 0x1FFF_FFFF);
    TopGroups(Five(v, w1, w2, w3, w4));
    FiveLow(v, w1, w2, w3, w4);
    LowBitsOr(Five(v, w1, w2, w3, w4), 0);
  }

  /** Decoding always consumes exactly the encoded bytes, and undoes encoding exactly for the values
      below 2^31 and the last eight. */
  lemma UlebRoundTrip(m: seq<Byte>, i: nat, v: bv64)
    requires Stands(m, i, EncodeU(v))
    ensures Uleb(m, i).1 == i + |EncodeU(v)|
    ensures Uleb(m, i).0 == v <==> v < 0x8000_0000 || v >= TOP
  {
    hide Or, Group, EncodeU, Fold, Groups, Int, Shl, LowBits;
    EncodeUTerminated(v);
    GroupsFold(m, i, EncodeU(v), 0, 0);
    FoldRanged(EncodeU(v), 0, 0);
    if v < 0x8_0000_0000 {
      FoldU(v, 0, 0);
      WholeU(v);
    } else if v >= 0xFFFF_FFFF_8000_0000 {
      FoldTop(v);
      WholeTop(v);
    }
  }

  lemma WholeTop(v: bv64)
    ensures Or(LowBits(v), TOP) == v <==> v >= TOP
  {
  }

  lemma WholeU(v: bv64)
    requires v < 0x8_0000_0000
    ensures Or(0, Int(Shl(v, 0))) == v <==> v < 0x8000_0000
  {
  }

  // ---------------------------------------------------------------- signed values

  predicate FitsS(w: bv64, s: nat) {
    if s == 0 then w + 0x4_0000_0000 < 0x8_0000_0000 else if s == 7 then w + 0x800_0000 < 0x1000_0000
    else if s == 14 then w + 0x10_0000 < 0x20_0000 else if s == 21 then w + 0x2000 < 0x4000 else w + 0x40 < 0x80
  }

  lemma FitsSNext(w: bv64, s: nat)
    requires IsShift(s) && FitsS(w, s)
    ensures if s < 28 then FitsS(Asr7(w), s + 7) else Short(w)
  {
    if s == 0 { Next0(w); } else if s == 7 { Next7(w); } else if s == 14 { Next14(w); } else if s == 21 { Next21(w); }
  }

  lemma Next0(w: bv64)
    requires w + 0x4_0000_0000 < 0x8_0000_0000
    ensures Asr7(w) + 0x800_0000 < 0x1000_0000
  {
  }

  lemma Next7(w: bv64)
    requires w + 0x800_0000 < 0x1000_0000
    ensures Asr7(w) + 0x10_0000 < 0x20_0000
  {
  }

  lemma Next14(w: bv64)
    requires w + 0x10_0000 < 0x20_0000
    ensures Asr7(w) + 0x2000 < 0x4000
  {
  }

  lemma Next21(w: bv64)
    requires w + 0x2000 < 0x4000
    ensures Asr7(w) + 0x40 < 0x80
  {
  }

  lemma OneSigned(w: bv64, s: nat, acc: bv64)
    requires IsShift(s) && Short(w)
    ensures Signed(Or(acc, Group((w & 0x7f) as bv8, s)), s + 7, (w & 0x7f) as bv8) == Or(acc, Int(Shl(w, s)))
  {
    hide Seven, LowSeven, Extend, Int, Signed, Or, Shl32;
    SevenOf(w);
    SignedOr(acc, Group((w & 0x7f) as bv8, s), s + 7, (w & 0x7f) as bv8);
    if s == 0 { Last0(w); } else if s == 7 { Last7(w); } else if s == 14 { Last14(w); } else if s == 21 { Last21(w); } else { Last28(w); }
  }

  lemma SignedOr(acc: bv64, g: bv64, shift: nat, last: Byte)
    ensures Signed(Or(acc, g), shift, last) == Or(acc, Signed(g, shift, last))
  {
    hide Extend;
  }

  lemma Last0(w: bv64)
    requires Short(w)
    ensures Signed(Extend(Shl32(LowSeven(w), 0)), 7, (w & 0x7f) as bv8) == Int(w)
  {
  }

  lemma Last7(w: bv64)
    requires Short(w)
    ensures Signed(Extend(Shl32(LowSeven(w), 7)), 14, (w & 0x7f) as bv8) == Int(w << 7)
  {
  }

  lemma Last14(w: bv64)
    requires Short(w)
    ensures Signed(Extend(Shl32(LowSeven(w), 14)), 21, (w & 0x7f) as bv8) == Int(w << 14)
  {
  }

  lemma Last21(w: bv64)
    requires Short(w)
    ensures Signed(Extend(Shl32(LowSeven(w), 21)), 28, (w & 0x7f) as bv8) == Int(w << 21)
  {
  }

  lemma Last28(w: bv64)
    requires Short(w)
    ensures Signed(Extend(Shl32(LowSeven(w), 28)), 35, (w & 0x7f) as bv8) == Int(w << 28)
  {
  }

  lemma FoldSCons(b: Byte, e: seq<Byte>, shift: nat, acc: bv64)
    requires |e| > 0
    ensures FoldS([b] + e, shift, acc) == FoldS(e, shift + 7, Or(acc, Group(b, shift)))
    ensures FoldS([b], shift, acc) == Signed(Or(acc, Group(b, shift)), shift + 7, b)
  {
    hide Or, Group, Signed, Fold;
    FoldCons(b, e, shift, acc);
  }

  lemma {:induction false} FoldSigned(w: bv64, s: nat, acc: bv64)
    requires IsShift(s) && FitsS(w, s)
    ensures FoldS(EncodeS(w), s, acc) == Or(acc, Int(Shl(w, s)))
    decreases 28 - s
  {
    hide Or, Group, Int, Shl, Low, EncodeS, FoldS, FitsS, Short, Asr7, Signed;
    EncodeSStep(w);
    FitsSNext(w, s);
    if Short(w) {
      OneSigned(w, s, acc);
      FoldSCons((w & 0x7f) as bv8, [0], s, acc);
    } else {
      FoldSCons(Low(w), EncodeS(Asr7(w)), s, acc);
      Join(w, Asr7(w), s, acc);
      FoldSigned(Asr7(w), s + 7, Or(acc, Group(Low(w), s)));
    }
  }

  lemma SignedRanged(acc: bv64, shift: nat, last: Byte)
    requires Ranged(acc)
    ensures Ranged(Signed(acc, shift, last))
  {
    hide Extend, Ranged;
    if shift < 32 {
      ExtendRanged((0xFFFF_FFFF as bv32) << shift);
      OrRanged(acc, Extend((0xFFFF_FFFF as bv32) << shift));
    }
  }

  /** Decoding always consumes exactly the encoded bytes, and undoes encoding exactly for the values
      in [-2^31, 2^31). */
  lemma SlebRoundTrip(m: seq<Byte>, i: nat, v: bv64)
    requires Stands(m, i, EncodeS(v))
    ensures Sleb(m, i).1 == i + |EncodeS(v)|
    ensures Sleb(m, i).0 == v <==> Ranged(v)
  {
    hide Or, Group, EncodeS, Fold, Groups, Int, Shl, Signed, Sleb, At, Ranged;
    EncodeSTerminated(v);
    GroupsFold(m, i, EncodeS(v), 0, 0);
    StandsAt(m, i, EncodeS(v), |EncodeS(v)| - 1);
    SlebIs(m, i, Fold(EncodeS(v), 0, 0), i + |EncodeS(v)| - 1, 7 * |EncodeS(v)|);
    assert Ranged(0) by { RangedFits(0); }
    FoldRanged(EncodeS(v), 0, 0);
    SignedRanged(Fold(EncodeS(v), 0, 0), 7 * |EncodeS(v)|, EncodeS(v)[|EncodeS(v)| - 1]);
    if Ranged(v) {
      RangedFits(v);
      FoldSigned(v, 0, 0);
      WholeS(v);
    }
  }

  lemma RangedFits(v: bv64)
    ensures Ranged(0) && (Ranged(v) ==> FitsS(v, 0) && v + 0x4_0000_0000 < 0x8_0000_0000)
  {
  }

  lemma WholeS(v: bv64)
    requires v + 0x4_0000_0000 < 0x8_0000_0000
    ensures Or(0, Int(Shl(v, 0))) == v <==> Ranged(v)
  {
    hide Or, Int, Shl;
    if v < 0x4_0000_0000 { WholePositive(v); } else { WholeNegative(v); }
  }

  lemma WholePositive(v: bv64)
    requires v < 0x4_0000_0000
    ensures Or(0, Int(Shl(v, 0))) == v <==> v < 0x8000_0000
  {
  }

  lemma WholeNegative(v: bv64)
    requires v >= 0xFFFF_FFFC_0000_0000
    ensures Or(0, Int(Shl(v, 0))) == v <==> v >= 0xFFFF_FFFF_8000_0000
  {
  }
}
