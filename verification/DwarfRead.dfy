/** Reading operands of DWARF programs as C reads them: values are 64-bit words, the read
    pointer wraps modulo 2^64, and bytes past the section read as zero. */
module DwarfRead {
  import opened Leb128

  const WORD: nat := 0x1_0000_0000_0000_0000

  function ByteAt(m: seq<Byte>, p: nat): nat { At(m, p) as nat }

  /** An unsigned operand and the pointer after it. */
  function U(m: seq<Byte>, p: nat): (nat, nat) {
    var (v, j) := Uleb(m, p);
    (v as nat, j % WORD)
  }

  /** A signed operand, as the 64-bit word it is stored in. */
  function S(m: seq<Byte>, p: nat): (nat, nat) {
    var (v, j) := Sleb(m, p);
    (v as nat, j % WORD)
  }

  /** The known memory ends well before the last address. */
  predicate Inside(m: seq<Byte>) { |m| <= WORD - 64 }

  lemma OperandPlace(m: seq<Byte>, p: nat)
    requires Inside(m) && p <= |m| + 16
    ensures p < U(m, p).1 <= (if p < |m| then |m| else p) + 1 && U(m, p).0 < WORD
    ensures p < S(m, p).1 <= (if p < |m| then |m| else p) + 1
  {
    hide Groups, Signed;
    GroupsPlace(m, p, 0, 0);
  }

  /** Little-endian value of n bytes; or-ing bytes at disjoint shifts is written as a sum. */
  function Lsb(m: seq<Byte>, p: nat, n: nat): nat
    decreases n
  {
    if n == 0 then 0 else ByteAt(m, p) + 256 * Lsb(m, p + 1, n - 1)
  }

  /** Big-endian value of n bytes. */
  function Msb(m: seq<Byte>, p: nat, n: nat): nat
    decreases n
  {
    if n == 0 then 0 else 256 * Msb(m, p, n - 1) + ByteAt(m, p + n - 1)
  }

  /** dbg->decode: only 1, 2, 4 and 8 bytes can be read; any other size reads nothing. */
  function Fixed(m: seq<Byte>, p: nat, n: nat, big: bool): (nat, nat) {
    if n == 1 || n == 2 || n == 4 || n == 8
    then (if big then Msb(m, p, n) else Lsb(m, p, n), (p + n) % WORD)
    else (0, p)
  }

  /** 256^n. */
  function Bound(n: nat): nat { if n == 0 then 1 else 256 * Bound(n - 1) }

  lemma {:induction false} LsbBound(m: seq<Byte>, p: nat, n: nat)
    ensures Lsb(m, p, n) < Bound(n)
    decreases n
  {
    if n > 0 { LsbBound(m, p + 1, n - 1); }
  }

  lemma {:induction false} MsbBound(m: seq<Byte>, p: nat, n: nat)
    ensures Msb(m, p, n) < Bound(n)
    decreases n
  {
    if n > 0 { MsbBound(m, p, n - 1); }
  }

  lemma FixedBound(m: seq<Byte>, p: nat, n: nat, big: bool)
    ensures Fixed(m, p, n, big).0 < WORD
  {
    hide Lsb, Msb;
    LsbBound(m, p, n);
    MsbBound(m, p, n);
    assert Bound(1) == 0x100 && Bound(2) == 0x1_0000 && Bound(4) == 0x1_0000_0000 by {
      assert Bound(2) == 256 * Bound(1) && Bound(3) == 256 * Bound(2);
    }
    assert Bound(6) == 256 * Bound(5) && Bound(8) == 256 * Bound(7);
  }

  /** Big-endian reading of bytes is little-endian reading of the bytes reversed. */
  lemma {:induction false} ReversedBytes(e: seq<Byte>)
    ensures Msb(e, 0, |e|) == Lsb(Reversed(e), 0, |e|)
    decreases |e|
  {
    if e != [] {
      var n := |e| - 1;
      ReversedBytes(e[..n]);
      MsbPrefix(e, n, n);
      LsbTail(Reversed(e), 1, 0, n);
      assert Reversed(e)[1..] == Reversed(e[..n]);
      assert ByteAt(Reversed(e), 0) == ByteAt(e, n);
    }
  }

  function Reversed(e: seq<Byte>): (r: seq<Byte>)
    ensures |r| == |e|
  {
    if e == [] then [] else [e[|e| - 1]] + Reversed(e[..|e| - 1])
  }

  lemma {:induction false} MsbPrefix(e: seq<Byte>, l: nat, n: nat)
    requires n <= l <= |e|
    ensures Msb(e, 0, n) == Msb(e[..l], 0, n)
    decreases n
  {
    if n > 0 { MsbPrefix(e, l, n - 1); }
  }

  lemma {:induction false} LsbTail(e: seq<Byte>, i: nat, j: nat, n: nat)
    requires i <= |e|
    ensures Lsb(e, i + j, n) == Lsb(e[i..], j, n)
    decreases n
  {
    if n > 0 { LsbTail(e, i, j + 1, n - 1); }
  }

  // ---------------------------------------------------------------- writing operands

  /** The byte with a number's binary digits. */
  function ToByte(n: nat): Byte { if n == 0 then 0 else Append(ToByte(n / 2), n % 2 == 1) }

  function Append(b: Byte, digit: bool): Byte { (b << 1) | (if digit then 1 else 0) }

  lemma AppendIs(b: Byte, digit: bool)
    requires b as nat < 128
    ensures Append(b, digit) as nat == 2 * (b as nat) + if digit then 1 else 0
  {
  }

  lemma {:induction false} ByteRoundTrip(n: nat)
    requires n < 256
    ensures ToByte(n) as nat == n
  {
    hide Append;
    if n > 0 {
      ByteRoundTrip(n / 2);
      AppendIs(ToByte(n / 2), n % 2 == 1);
    }
  }

  /** v in n bytes, low byte first. */
  function LsbBytes(v: nat, n: nat): (e: seq<Byte>)
    ensures |e| == n
    decreases n
  {
    if n == 0 then [] else [ToByte(v % 256)] + LsbBytes(v / 256, n - 1)
  }

  function FixedBytes(v: nat, n: nat, big: bool): (e: seq<Byte>)
    ensures |e| == n
  {
    if big then Reversed(LsbBytes(v, n)) else LsbBytes(v, n)
  }

  lemma StandsTail(m: seq<Byte>, p: nat, a: seq<Byte>, b: seq<Byte>)
    requires Stands(m, p, a + b)
    ensures Stands(m, p, a) && Stands(m, p + |a|, b)
  {
    var e := m[p..p + |a + b|];
    assert m[p..p + |a|] == e[..|a|] == a;
    assert m[p + |a|..p + |a| + |b|] == e[|a|..] == b;
  }

  /** A byte and what stands after it. */
  lemma Opcode(m: seq<Byte>, p: nat, b: Byte, rest: seq<Byte>)
    requires Stands(m, p, [b] + rest) || (rest == [] && Stands(m, p, [b]))
    ensures ByteAt(m, p) == b as nat && Stands(m, p + 1, rest)
  {
    assert rest == [] ==> [b] + rest == [b];
    StandsAt(m, p, [b] + rest, 0);
    StandsTail(m, p, [b], rest);
  }

  /** The number a 64-bit word stands for. */
  function Num(v: bv64): nat { v as nat }

  predicate Small(v: bv64) { v < 0x8000_0000 }

  lemma UnsignedOperand(m: seq<Byte>, p: nat, v: bv64)
    requires Stands(m, p, EncodeU(v)) && Small(v) && p + |EncodeU(v)| < WORD
    ensures U(m, p) == (Num(v), p + |EncodeU(v)|)
  {
    hide Uleb, EncodeU, Stands;
    UlebRoundTrip(m, p, v);
  }

  lemma SignedOperand(m: seq<Byte>, p: nat, v: bv64)
    requires Stands(m, p, EncodeS(v)) && Ranged(v) && p + |EncodeS(v)| < WORD
    ensures S(m, p) == (Num(v), p + |EncodeS(v)|)
  {
    hide Sleb, EncodeS, Stands;
    SlebRoundTrip(m, p, v);
  }

  lemma {:induction false} LsbReads(m: seq<Byte>, p: nat, v: nat, n: nat)
    requires Stands(m, p, LsbBytes(v, n)) && v < Bound(n)
    ensures Lsb(m, p, n) == v
    decreases n
  {
    hide ToByte;
    if n > 0 {
      var rest := LsbBytes(v / 256, n - 1);
      StandsAt(m, p, LsbBytes(v, n), 0);
      StandsTail(m, p, [ToByte(v % 256)], rest);
      ByteRoundTrip(v % 256);
      LsbReads(m, p + 1, v / 256, n - 1);
    }
  }

  lemma {:induction false} ReversedTwice(e: seq<Byte>)
    ensures Reversed(Reversed(e)) == e
  {
    if e != [] {
      ReversedTwice(e[..|e| - 1]);
      ReversedFront(e[|e| - 1], Reversed(e[..|e| - 1]));
    }
  }

  lemma {:induction false} ReversedFront(b: Byte, e: seq<Byte>)
    ensures Reversed([b] + e) == Reversed(e) + [b]
    decreases |e|
  {
    if e != [] {
      var n := |e| - 1;
      assert ([b] + e)[..|e|] == [b] + e[..n];
      ReversedFront(b, e[..n]);
    }
  }

  lemma {:induction false} MsbStands(m: seq<Byte>, p: nat, e: seq<Byte>, n: nat)
    requires Stands(m, p, e) && n <= |e|
    ensures Msb(m, p, n) == Msb(e, 0, n)
    decreases n
  {
    if n > 0 {
      MsbStands(m, p, e, n - 1);
      StandsAt(m, p, e, n - 1);
    }
  }

  /** An operand of fixed size reads back, in either byte order. */
  lemma FixedOperand(m: seq<Byte>, p: nat, v: nat, n: nat, big: bool)
    requires Stands(m, p, FixedBytes(v, n, big)) && v < Bound(n) && p + n < WORD && n in {1, 2, 4, 8}
    ensures Fixed(m, p, n, big) == (v, p + n)
  {
    hide LsbBytes, Reversed, Lsb, Msb, Bound;
    var e := LsbBytes(v, n);
    if big {
      var b := Reversed(e);
      MsbStands(m, p, b, n);
      ReversedBytes(b);
      ReversedTwice(e);
      assert e[0..0 + |e|] == e;
      LsbReads(e, 0, v, n);
    } else {
      LsbReads(m, p, v, n);
    }
  }

  lemma TwoBytes()
    ensures Bound(2) == 0x1_0000
  {
    assert Bound(1) == 256;
  }

  // ---------------------------------------------------------------- an operand that moves pointers back

  const MINUS_SIX: seq<Byte> := [0xFA, 0xFF, 0xFF, 0xFF, 0x0F]

  /** Five groups whose bit 31 is set read as a number just below 2^64. */
  lemma MinusSix(m: seq<Byte>, p: nat)
    requires Stands(m, p, MINUS_SIX) && p + 5 < WORD
    ensures U(m, p) == (WORD - 6, p + 5)
  {
    hide Groups, Group, Or, Fold, Stands;
    GroupsFold(m, p, MINUS_SIX, 0, 0);
    FoldCons(0xFA, [0xFF, 0xFF, 0xFF, 0x0F], 0, 0);
    FoldCons(0xFF, [0xFF, 0xFF, 0x0F], 7, Or(0, Group(0xFA, 0)));
    FiveGroups();
    FoldCons(0xFF, [0xFF, 0x0F], 14, 0x3FFA);
    FoldCons(0xFF, [0x0F], 21, 0x1F_FFFA);
    FoldCons(0x0F, [], 28, 0xFFF_FFFA);
    assert [0xFA as Byte] + [0xFF, 0xFF, 0xFF, 0x0F] == MINUS_SIX;
    assert [0xFF as Byte] + [0xFF, 0xFF, 0x0F] == [0xFF, 0xFF, 0xFF, 0x0F];
    assert [0xFF as Byte] + [0xFF, 0x0F] == [0xFF, 0xFF, 0x0F] && [0xFF as Byte] + [0x0F] == [0xFF, 0x0F];
  }

  lemma FiveGroups()
    ensures Or(Or(0, Group(0xFA, 0)), Group(0xFF, 7)) == 0x3FFA
    ensures Or(0x3FFA, Group(0xFF, 14)) == 0x1F_FFFA && Or(0x1F_FFFA, Group(0xFF, 21)) == 0xFFF_FFFA
    ensures Or(0xFFF_FFFA, Group(0x0F, 28)) == 0xFFFF_FFFF_FFFF_FFFA
  {
  }
}
