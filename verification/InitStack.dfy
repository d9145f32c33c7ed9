/** lib/spawn.c, init_stack: the first stack page of a spawned program, byte by byte. */
module InitStack {
  import opened Wrappers

  const PGSIZE: nat := 4096
  const UTEMP: nat := 0x40_0000
  const USTACKTOP: nat := 0xEF7F_E000
  const WORD: nat := 0x1_0000_0000_0000_0000

  type Byte = b: nat | b < 256

  // ---------------------------------------------------------------- bytes and words

  /** v in n bytes, low byte first, and the value of such bytes. */
  function Le(v: nat, n: nat): (r: seq<Byte>)
    ensures |r| == n
    decreases n
  {
    if n == 0 then [] else [v % 256] + Le(v / 256, n - 1)
  }

  function Value(s: seq<Byte>): nat { if s == [] then 0 else s[0] + 256 * Value(s[1..]) }

  function Bound(n: nat): nat { if n == 0 then 1 else 256 * Bound(n - 1) }

  lemma {:induction false} ValueLe(v: nat, n: nat)
    requires v < Bound(n)
    ensures Value(Le(v, n)) == v
    decreases n
  {
    if n > 0 {
      ValueLe(v / 256, n - 1);
      assert Le(v, n)[1..] == Le(v / 256, n - 1);
    }
  }

  lemma WordBound()
    ensures Bound(8) == WORD
  {
    assert Bound(2) == 256 * Bound(1) && Bound(4) == 256 * Bound(3) && Bound(6) == 256 * Bound(5) && Bound(8) == 256 * Bound(7);
    assert Bound(1) == 256 && Bound(2) == 0x1_0000 && Bound(3) == 256 * Bound(2) && Bound(5) == 256 * Bound(4) && Bound(7) == 256 * Bound(6);
  }

  function Put(p: seq<Byte>, off: nat, s: seq<Byte>): (r: seq<Byte>)
    requires off + |s| <= |p|
    ensures |r| == |p|
  {
    p[..off] + s + p[off + |s|..]
  }

  /** The n bytes at off, empty if they are not all in the page. */
  function Slice(p: seq<Byte>, off: nat, n: nat): seq<Byte> {
    if off + n <= |p| then p[off..off + n] else []
  }

  lemma PutSlice(p: seq<Byte>, off: nat, s: seq<Byte>, a: nat, n: nat)
    requires off + |s| <= |p| && a + n <= |p|
    ensures Slice(Put(p, off, s), off, |s|) == s
    ensures a + n <= off || off + |s| <= a ==> Slice(Put(p, off, s), a, n) == Slice(p, a, n)
  {
    var q := Put(p, off, s);
    assert q[off..off + |s|] == s;
    if a + n <= off || off + |s| <= a {
      assert q[a..a + n] == p[a..a + n];
    }
  }

  /** Stores s at address a through the page mapped at UTEMP; a store that leaves the page faults. */
  method Store(page: array<Byte>, a: nat, s: seq<Byte>) returns (ok: bool)
    requires page.Length == PGSIZE
    modifies page
    ensures ok <==> UTEMP <= a && a + |s| <= UTEMP + PGSIZE
    ensures page[..] == if ok then Put(old(page[..]), a - UTEMP, s) else old(page[..])
  {
    if a < UTEMP || a + |s| > UTEMP + PGSIZE {
      return false;
    }
    var off, i := a - UTEMP, 0;
    while i < |s|
      invariant 0 <= i <= |s|
      invariant forall k :: 0 <= k < page.Length ==> page[k] == if off <= k < off + i then s[k - off] else old(page[..])[k]
    {
      page[off + i] := s[i];
      i := i + 1;
    }
    assert page[..] == Put(old(page[..]), off, s);
    return true;
  }

  // ---------------------------------------------------------------- sizes and places

  type Str = s: seq<Byte> | 0 !in s

  /** Bytes of the strings, each with its null. */
  function Size(args: seq<Str>): nat { if args == [] then 0 else |args[0]| + 1 + Size(args[1..]) }

  /** Where string k goes: the strings fill the page from the top. */
  function Off(args: seq<Str>, k: nat): int
    requires k <= |args|
  {
    PGSIZE - Size(args[k..])
  }

  lemma OffNext(args: seq<Str>, k: nat)
    requires k < |args|
    ensures Off(args, k + 1) == Off(args, k) + |args[k]| + 1
  {
    assert args[k..][1..] == args[k + 1..];
  }

  lemma {:induction false} OffGrows(args: seq<Str>, i: nat, k: nat)
    requires i <= k <= |args|
    ensures Off(args, i) + (k - i) <= Off(args, k) <= PGSIZE && (i < k ==> Off(args, i) + |args[i]| + 1 <= Off(args, k))
    decreases k - i
  {
    if i < k {
      OffNext(args, i);
      OffGrows(args, i + 1, k);
    }
  }

  /** The lowest address used, were there no wrap-around: that of argc, two words below argv. */
  function Lowest(args: seq<Str>): int {
    var top := UTEMP + PGSIZE - Size(args);
    top - top % 8 - 8 * (|args| + 1) - 16
  }

  function RoundDown8(a: nat): nat { a - a % 8 }

  /** Subtraction of 64-bit words. */
  function Minus(a: nat, b: nat): nat
    requires b <= WORD
  {
    (a + WORD - b) % WORD
  }

  /** The code's argv_store - 2. */
  function Computed(args: seq<Str>): nat
    requires Size(args) < WORD / 2 && |args| < 0x0FFF_FFFF
  {
    Minus(Minus(RoundDown8(Minus(UTEMP + PGSIZE, Size(args))), 8 * (|args| + 1)), 16)
  }

  lemma MinusIs(a: nat, b: nat)
    requires a < WORD && b <= WORD
    ensures Minus(a, b) == if a >= b then a - b else a - b + WORD
  {
  }

  /** The check is made on the right address, or on one beyond the page if the right one is negative. */
  lemma ComputedWraps(args: seq<Str>)
    requires Size(args) < WORD / 2 && |args| < 0x0FFF_FFFF
    ensures Computed(args) == if Lowest(args) >= 0 then Lowest(args) else Lowest(args) + WORD
    ensures Lowest(args) < 0 ==> Computed(args) >= UTEMP + PGSIZE
  {
    hide Minus, Size;
    var n := Size(args);
    var top := UTEMP + PGSIZE - n;
    var store := Minus(UTEMP + PGSIZE, n);
    MinusIs(UTEMP + PGSIZE, n);
    Aligned(top);
    var argv := Minus(RoundDown8(store), 8 * (|args| + 1));
    MinusIs(RoundDown8(store), 8 * (|args| + 1));
    MinusIs(argv, 16);
  }

  lemma Aligned(top: int)
    ensures (top + WORD) % 8 == top % 8
  {
  }

  // ---------------------------------------------------------------- the page

  datatype Outcome = NoMem | Fault | Built(page: seq<Byte>, rsp: nat)

  /** A place in the page as the child addresses it. */
  function Child(off: nat): nat { USTACKTOP - PGSIZE + off }

  /** UTEMP2USTACK. */
  function ToStack(a: nat): nat { (a + USTACKTOP - PGSIZE - UTEMP) % WORD }

  ghost predicate WordAt(p: seq<Byte>, off: nat, v: nat) { Slice(p, off, 8) == Le(v, 8) }

  ghost predicate StringAt(p: seq<Byte>, off: nat, s: Str) { Slice(p, off, |s| + 1) == s + [0] }

  ghost predicate Frame(args: seq<Str>, base: nat) {
    && base >= 16 && base + 8 * (|args| + 1) <= Off(args, 0)
  }

  /** The first n pointers and strings are in place. */
  ghost predicate Filled(p: seq<Byte>, args: seq<Str>, base: nat, n: nat) {
    && |p| == PGSIZE && n <= |args|
    && (forall k :: 0 <= k < n ==> Off(args, k) >= 0 && WordAt(p, base + 8 * k, Child(Off(args, k))))
    && (forall k :: 0 <= k < n ==> Off(args, k) >= 0 && StringAt(p, Off(args, k), args[k]))
  }

  /** A store below the strings and outside the first n pointers. */
  lemma FilledKept(p: seq<Byte>, args: seq<Str>, base: nat, n: nat, off: nat, s: seq<Byte>)
    requires Frame(args, base) && Filled(p, args, base, n) && off + |s| <= PGSIZE
    requires off + |s| <= base || (base + 8 * n <= off && (off + |s| <= Off(args, 0) || off >= Off(args, n)))
    ensures Filled(Put(p, off, s), args, base, n)
  {
    hide Le, Slice, Put, Off, Size;
    var q := Put(p, off, s);
    forall k | 0 <= k < n
      ensures WordAt(q, base + 8 * k, Child(Off(args, k))) && StringAt(q, Off(args, k), args[k])
    {
      OffGrows(args, 0, k);
      OffGrows(args, k, n);
      OffGrows(args, n, |args|);
      assert WordAt(p, base + 8 * k, Child(Off(args, k))) && StringAt(p, Off(args, k), args[k]);
      OffGrows(args, 0, n);
      PutSlice(p, off, s, base + 8 * k, 8);
      PutSlice(p, off, s, Off(args, k), |args[k]| + 1);
    }
  }

  /** One turn of the loop: a pointer and a string. */
  lemma FillOne(p: seq<Byte>, args: seq<Str>, base: nat, n: nat)
    requires Frame(args, base) && Filled(p, args, base, n) && n < |args|
    ensures 0 <= Off(args, n) && Off(args, n) + |args[n]| + 1 <= PGSIZE && base + 8 * n + 8 <= PGSIZE
    ensures Filled(Put(Put(p, base + 8 * n, Le(Child(Off(args, n)), 8)), Off(args, n), args[n] + [0]), args, base, n + 1)
  {
    hide Le, Slice, Put, Off, Size;
    OffGrows(args, 0, n);
    OffGrows(args, n, |args|);
    var word := Le(Child(Off(args, n)), 8);
    var q := Put(p, base + 8 * n, word);
    FilledKept(p, args, base, n, base + 8 * n, word);
    FilledKept(q, args, base, n, Off(args, n), args[n] + [0]);
    PutSlice(p, base + 8 * n, word, 0, 0);
    PutSlice(q, Off(args, n), args[n] + [0], base + 8 * n, 8);
  }

  /** Everything the child will read. */
  ghost predicate StackOk(p: seq<Byte>, args: seq<Str>, base: nat) {
    && Frame(args, base) && Filled(p, args, base, |args|)
    && WordAt(p, base + 8 * |args|, 0) && WordAt(p, base - 8, Child(base)) && WordAt(p, base - 16, |args|)
  }

  lemma FilledLength(p: seq<Byte>, args: seq<Str>, base: nat, n: nat)
    requires Filled(p, args, base, n)
    ensures |p| == PGSIZE
  {
  }

  lemma LastWords(p: seq<Byte>, args: seq<Str>, base: nat)
    requires Frame(args, base) && Filled(p, args, base, |args|)
    ensures base + 8 * |args| + 8 <= PGSIZE
    ensures StackOk(Put(Put(Put(p, base + 8 * |args|, Le(0, 8)), base - 8, Le(Child(base), 8)), base - 16, Le(|args|, 8)), args, base)
  {
    hide Le, Slice, Put, Off, Size, Filled;
    OffGrows(args, 0, |args|);
    FilledLength(p, args, base, |args|);
    var n := |args|;
    var p1 := Put(p, base + 8 * n, Le(0, 8));
    var p2 := Put(p1, base - 8, Le(Child(base), 8));
    FilledKept(p, args, base, n, base + 8 * n, Le(0, 8));
    FilledKept(p1, args, base, n, base - 8, Le(Child(base), 8));
    FilledKept(p2, args, base, n, base - 16, Le(n, 8));
    PutSlice(p, base + 8 * n, Le(0, 8), 0, 0);
    PutSlice(p1, base - 8, Le(Child(base), 8), base + 8 * n, 8);
    PutSlice(p2, base - 16, Le(n, 8), base + 8 * n, 8);
    PutSlice(p2, base - 16, Le(n, 8), base - 8, 8);
  }

  /** init_stack up to the remapping; memory says whether the page could be allocated.  The page is
      built exactly if it fits; the check refuses every other request whose addresses do not wrap
      below zero, and in those that do the first store faults. */
  method Build(args: seq<Str>, memory: bool) returns (r: Outcome)
    requires Size(args) < WORD / 2 && |args| < 0x0FFF_FFFF
    ensures r.Built? <==> Lowest(args) >= UTEMP && memory
    ensures r.Fault? <==> Lowest(args) < 0 && memory
    ensures r.Built? ==> var base := Lowest(args) + 16 - UTEMP;
                         StackOk(r.page, args, base) && r.rsp == Child(base - 16)
  {
    hide StackOk, Minus, Lowest, Places;
    ComputedWraps(args);
    var stringSize, argc := 0, 0;
    assert args[0..] == args;
    while argc < |args|
      invariant 0 <= argc <= |args| && stringSize + Size(args[argc..]) == Size(args)
    {
      assert args[argc..][1..] == args[argc + 1..];
      stringSize := stringSize + |args[argc]| + 1;
      argc := argc + 1;
    }
    var stringStore := Minus(UTEMP + PGSIZE, stringSize);
    var argvStore := Minus(RoundDown8(stringStore), 8 * (argc + 1));
    if Minus(argvStore, 16) < UTEMP || !memory { return NoMem; }
    Placed(args);
    r := Fill(args, argc, stringStore, argvStore);
  }

  /** The stores: the strings and their pointers, the null pointer, argv and argc. */
  method Fill(args: seq<Str>, argc: nat, strings: nat, argvStore: nat) returns (r: Outcome)
    requires argc == |args| && Places(args, strings, argvStore)
    ensures r.Built? || r.Fault?
    ensures r.Fault? <==> Lowest(args) < 0
    ensures r.Built? ==> var base := Lowest(args) + 16 - UTEMP;
                         StackOk(r.page, args, base) && r.rsp == Child(base - 16)
  {
    hide Filled, StackOk, Le, Put, Frame, Lowest, Size, Off;
    ghost var fits, base := Lowest(args) >= UTEMP, argvStore - UTEMP;
    var page := new Byte[PGSIZE](i => 0);
    var stringStore: nat, i: nat := strings, 0;
    if fits { NothingFilled(page[..], args, base); }
    while i < argc
      invariant 0 <= i <= argc && fresh(page) && page.Length == PGSIZE && (!fits ==> i == 0)
      invariant fits ==> Filled(page[..], args, base, i) && stringStore == UTEMP + Off(args, i)
    {
      if fits { FillOne(page[..], args, base, i); }
      OffNext(args, i);
      var ok := Store(page, argvStore + 8 * i, Le(ToStack(stringStore), 8));
      if !ok { return Fault; }
      ok := Store(page, stringStore, args[i] + [0]);
      stringStore := stringStore + |args[i]| + 1;
      i := i + 1;
    }
    LastWords(page[..], args, base);
    WholeOff(args);
    var ok := Store(page, argvStore + 8 * argc, Le(0, 8));
    assert stringStore == UTEMP + PGSIZE;
    ok := Store(page, argvStore - 8, Le(ToStack(argvStore), 8));
    ok := Store(page, argvStore - 16, Le(argc, 8));
    r := Built(page[..], ToStack(argvStore - 16));
  }

  lemma WholeOff(args: seq<Str>)
    ensures Off(args, |args|) == PGSIZE
  {
  }

  /** Where strings and pointers go, if everything fits and if the addresses wrap. */
  ghost predicate Places(args: seq<Str>, strings: nat, argv: nat) {
    && (Lowest(args) >= UTEMP ==>
          && strings == UTEMP + Off(args, 0) && argv == Lowest(args) + 16
          && Frame(args, argv - UTEMP) && argv - UTEMP < PGSIZE)
    && (Lowest(args) < UTEMP ==> Lowest(args) < 0 && |args| > 0 && (argv < UTEMP || argv >= UTEMP + PGSIZE))
  }

  lemma Placed(args: seq<Str>)
    requires Size(args) < WORD / 2 && |args| < 0x0FFF_FFFF && Computed(args) >= UTEMP
    ensures var strings := Minus(UTEMP + PGSIZE, Size(args));
            Places(args, strings, Minus(RoundDown8(strings), 8 * (|args| + 1)))
  {
    hide Minus, Size;
    ComputedWraps(args);
    assert args[0..] == args;
    var store := Minus(UTEMP + PGSIZE, Size(args));
    MinusIs(UTEMP + PGSIZE, Size(args));
    MinusIs(RoundDown8(store), 8 * (|args| + 1));
    MinusIs(Minus(RoundDown8(store), 8 * (|args| + 1)), 16);
    if Lowest(args) >= UTEMP { Fitting(args); }
    NoArguments(args);
  }

  lemma NoArguments(args: seq<Str>)
    ensures args == [] ==> Lowest(args) >= UTEMP
  {
  }

  lemma Fitting(args: seq<Str>)
    requires Lowest(args) >= UTEMP
    ensures Frame(args, Lowest(args) + 16 - UTEMP) && Lowest(args) + 16 - UTEMP < PGSIZE
  {
    assert args[0..] == args;
  }

  lemma NothingFilled(p: seq<Byte>, args: seq<Str>, base: nat)
    requires |p| == PGSIZE
    ensures Filled(p, args, base, 0)
  {
  }

  // ---------------------------------------------------------------- what the child reads

  /** A word and a string at an address of the child. */
  function Word(p: seq<Byte>, a: nat): nat {
    if a >= Child(0) then Value(Slice(p, a - Child(0), 8)) else 0
  }

  function CString(p: seq<Byte>, off: nat): seq<Byte>
    decreases |p| - off
  {
    if off >= |p| || p[off] == 0 then [] else [p[off]] + CString(p, off + 1)
  }

  function ReadString(p: seq<Byte>, a: nat): seq<Byte> { if a >= Child(0) then CString(p, a - Child(0)) else [] }

  /** The strings that n pointers from argv on point to. */
  function ReadArgs(p: seq<Byte>, argv: nat, n: nat): seq<seq<Byte>> {
    if n == 0 then [] else ReadArgs(p, argv, n - 1) + [ReadString(p, Word(p, argv + 8 * (n - 1)))]
  }

  lemma ReadWord(p: seq<Byte>, off: nat, v: nat)
    requires WordAt(p, off, v) && v < WORD
    ensures Word(p, Child(off)) == v
  {
    hide Value, Le, Slice, Bound;
    WordBound();
    ValueLe(v, 8);
  }

  lemma {:induction false} ReadCString(p: seq<Byte>, off: nat, s: Str)
    requires off + |s| + 1 <= |p| && p[off..off + |s| + 1] == s + [0]
    ensures CString(p, off) == s
    decreases |s|
  {
    assert p[off] == (s + [0])[0];
    if s != [] {
      assert p[off + 1..off + |s| + 1] == p[off..off + |s| + 1][1..] == s[1..] + [0];
      ReadCString(p, off + 1, s[1..]);
    }
  }

  lemma {:induction false} ReadAllArgs(p: seq<Byte>, args: seq<Str>, base: nat, n: nat)
    requires Frame(args, base) && Filled(p, args, base, |args|) && n <= |args|
    ensures ReadArgs(p, Child(base), n) == args[..n]
  {
    hide Le, Off, Size, Word, CString, Slice;
    if n > 0 {
      ReadAllArgs(p, args, base, n - 1);
      var k := n - 1;
      OffGrows(args, k, |args|);
      assert WordAt(p, base + 8 * k, Child(Off(args, k))) && StringAt(p, Off(args, k), args[k]);
      ReadWord(p, base + 8 * k, Child(Off(args, k)));
      StringRead(p, Off(args, k), args[k]);
    }
  }

  lemma StringRead(p: seq<Byte>, off: nat, s: Str)
    requires StringAt(p, off, s)
    ensures CString(p, off) == s
  {
    ReadCString(p, off, s);
  }

  /** From its stack pointer the child reads argc, then argv, and through argv every argument and
      the null pointer after the last. */
  lemma ReadBack(p: seq<Byte>, args: seq<Str>, base: nat)
    requires StackOk(p, args, base) && |args| < 0x0FFF_FFFF
    ensures var rsp := Child(base - 16);
            && Word(p, rsp) == |args| && Word(p, rsp + 8) == Child(base)
            && ReadArgs(p, Word(p, rsp + 8), Word(p, rsp)) == args
            && Word(p, Word(p, rsp + 8) + 8 * |args|) == 0
  {
    hide Filled, Word, Le, Slice, ReadArgs;
    ReadWord(p, base - 16, |args|);
    BaseInPage(p, args, base);
    ReadWord(p, base - 8, Child(base));
    ReadWord(p, base + 8 * |args|, 0);
    ReadAllArgs(p, args, base, |args|);
    assert args[..|args|] == args;
  }

  lemma BaseInPage(p: seq<Byte>, args: seq<Str>, base: nat)
    requires Frame(args, base)
    ensures base < PGSIZE
  {
  }

  // ---------------------------------------------------------------- the wrap-around

  lemma {:induction false} EmptyStrings(args: seq<Str>)
    requires forall k :: 0 <= k < |args| ==> args[k] == []
    ensures Size(args) == |args|
  {
    if args != [] { EmptyStrings(args[1..]); }
  }

  /** Strings far below UTEMP bytes can still wrap: half a million empty arguments pass the check. */
  lemma ManyEmptyStrings(args: seq<Str>)
    requires |args| == 500_000 && forall k :: 0 <= k < |args| ==> args[k] == []
    ensures Size(args) < UTEMP && Lowest(args) < 0
  {
    EmptyStrings(args);
  }
}
