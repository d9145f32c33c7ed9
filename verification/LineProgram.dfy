/** kern/libdwarf_lineno.c: the line number program (section 6.2.5 of DWARF Version 4), run with
    the search for one address fused into it. */
module LineProgram {
  import opened Wrappers
  import opened Leb128
  import opened DwarfRead

  /** The fields of the program header the interpreter uses. */
  datatype Header = Header(minlen: nat, defstmt: nat, lbase: int, lrange: nat, opbase: nat, addrSize: nat, big: bool)

  ghost predicate HeaderOk(h: Header) {
    h.minlen < 256 && h.defstmt < 256 && -128 <= h.lbase < 128 && 0 < h.lrange < 256 && h.opbase < 256
  }

  datatype Regs = Regs(address: nat, file: nat, line: nat, column: nat, isStmt: nat, basicBlock: bool,
                       prologueEnd: bool, epilogueBegin: bool)

  datatype Row = Row(address: nat, file: nat, line: nat, column: nat, basicBlock: bool, isStmt: nat, endSequence: bool)

  /** The read pointer and the line machine. */
  datatype Machine = Machine(p: nat, regs: Regs)

  /** What the caller gets: the last row appended and how many were. */
  datatype LineInfo = LineInfo(line: Row, count: nat)

  function Reset(h: Header): Regs { Regs(0, 1, 1, 0, h.defstmt, false, false, false) }

  /** LINE and ADDRESS of an opcode at or above the opcode base. */
  function LineDelta(h: Header, op: nat): int
    requires h.lrange > 0
  {
    h.lbase + (op - h.opbase) % h.lrange
  }

  function AddressDelta(h: Header, op: nat): int
    requires h.lrange > 0
  {
    (op - h.opbase) / h.lrange * h.minlen
  }

  function RowOf(r: Regs): Row { Row(r.address, r.file, r.line, r.column, r.basicBlock, r.isStmt, false) }

  function AfterRow(r: Regs): Regs { r.(basicBlock := false, prologueEnd := false, epilogueBegin := false) }

  function SkipString(m: seq<Byte>, p: nat): nat
    decreases |m| - p
  {
    if p >= |m| || m[p] == 0 then p + 1 else SkipString(m, p + 1)
  }

  /** A file entry: a string and three unsigned operands. */
  function SkipFile(m: seq<Byte>, p: nat): nat {
    U(m, U(m, U(m, SkipString(m, p) % WORD).1).1).1
  }

  function Extended(h: Header, m: seq<Byte>, s: Machine): Machine {
    var (size, q) := U(m, (s.p + 1) % WORD);
    var op := ByteAt(m, q);
    var q1 := (q + 1) % WORD;
    if op == 1 then Machine(q1, Reset(h))
    else if op == 2 then
      var (a, q2) := Fixed(m, q1, h.addrSize, h.big);
      Machine(q2, s.regs.(address := a))
    else if op == 3 then s.(p := SkipFile(m, q1))
    else s.(p := (q + size) % WORD)
  }

  function Standard(h: Header, m: seq<Byte>, s: Machine, op: nat): (Machine, Option<Row>)
    requires h.lrange > 0
  {
    var q := (s.p + 1) % WORD;
    var r := s.regs;
    var (u, qu) := U(m, q);
    if op == 1 then (Machine(q, AfterRow(r)), Some(RowOf(r)))
    else if op == 2 then (Machine(qu, r.(address := (r.address + u * h.minlen) % WORD)), None)
    else if op == 3 then (Machine(S(m, q).1, r.(line := (r.line + S(m, q).0) % WORD)), None)
    else if op == 4 then (Machine(qu, r.(file := u)), None)
    else if op == 5 then (Machine(qu, r.(column := u)), None)
    else if op == 6 then (Machine(q, r.(isStmt := if r.isStmt == 0 then 1 else 0)), None)
    else if op == 7 then (Machine(q, r.(basicBlock := true)), None)
    else if op == 8 then (Machine(q, r.(address := (r.address + AddressDelta(h, 255)) % WORD)), None)
    else if op == 9 then (Machine(Fixed(m, q, 2, h.big).1, r.(address := (r.address + Fixed(m, q, 2, h.big).0) % WORD)), None)
    else if op == 10 then (Machine(q, r.(prologueEnd := true)), None)
    else if op == 11 then (Machine(q, r.(epilogueBegin := true)), None)
    else if op == 12 then (Machine(qu, r), None)
    else (Machine(q, r), None)
  }

  /** One turn of the loop: the next machine state, and the row the turn appends, if any. */
  function Step(h: Header, m: seq<Byte>, s: Machine): (Machine, Option<Row>)
    requires h.lrange > 0
  {
    var op := ByteAt(m, s.p);
    if op == 0 then (Extended(h, m, s), None)
    else if op < h.opbase then Standard(h, m, s, op)
    else
      var r := s.regs.(line := (s.regs.line + LineDelta(h, op)) % WORD, address := (s.regs.address + AddressDelta(h, op)) % WORD);
      (Machine((s.p + 1) % WORD, AfterRow(r)), Some(RowOf(r)))
  }

  /** A special opcode stands for a line and an address advance, and gives exactly these back. */
  lemma SpecialOpcode(h: Header, dline: int, advance: nat)
    requires h.lrange > 0 && h.lbase <= dline < h.lbase + h.lrange
    ensures var op := dline - h.lbase + h.lrange * advance + h.opbase;
            op >= 0 && LineDelta(h, op) == dline && AddressDelta(h, op) == advance * h.minlen
  {
    var d := dline - h.lbase;
    var n := d + h.lrange * advance;
    assert n / h.lrange == advance && n % h.lrange == d by { DivModUnique(n, h.lrange, advance, d); }
  }

  lemma DivModUnique(n: nat, k: nat, q: nat, r: nat)
    requires k > 0 && r < k && n == r + k * q
    ensures n / k == q && n % k == r
  {
    var q', r' := n / k, n % k;
    if q' > q { AtLeast(k, q' - q); } else if q' < q { AtLeast(k, q - q'); }
    Distribute(k, q, q');
  }

  lemma AtLeast(k: nat, d: nat)
    requires d >= 1
    ensures k * d >= k
  {
  }

  lemma Distribute(k: int, a: int, b: int)
    ensures k * (a - b) == k * a - k * b && k * (b - a) == k * b - k * a
  {
  }

  // ---------------------------------------------------------------- building the table, then searching it

  /** The rows a run that never stops early appends in its first k turns. */
  function Rows(h: Header, m: seq<Byte>, pe: nat, s: Machine, k: nat): seq<Row>
    requires h.lrange > 0
    decreases k
  {
    if k == 0 || s.p >= pe then []
    else
      var (s', row) := Step(h, m, s);
      (if row.Some? then [row.value] else []) + Rows(h, m, pe, s', k - 1)
  }

  /** The rows before the first one beyond pc. */
  function Reached(rows: seq<Row>, pc: nat): (n: nat)
    ensures n <= |rows| && (forall i :: 0 <= i < n ==> rows[i].address <= pc) && (n < |rows| ==> rows[n].address > pc)
  {
    if rows == [] || rows[0].address > pc then 0 else 1 + Reached(rows[1..], pc)
  }

  /** The search: the last row of that prefix, and its length. */
  function Found(li: LineInfo, rows: seq<Row>, pc: nat): LineInfo {
    var n := Reached(rows, pc);
    if n == 0 then li else LineInfo(rows[n - 1], li.count + n)
  }

  // ---------------------------------------------------------------- the fused run

  /** What the interpreter has after k turns, and whether the pc test made it return. */
  function Fused(h: Header, m: seq<Byte>, pe: nat, pc: nat, s: Machine, li: LineInfo, k: nat): (LineInfo, bool)
    requires h.lrange > 0
    decreases k
  {
    if k == 0 || s.p >= pe then (li, false)
    else
      var (s', row) := Step(h, m, s);
      if row == None then Fused(h, m, pe, pc, s', li, k - 1)
      else if pc < row.value.address then (li, true)
      else Fused(h, m, pe, pc, s', LineInfo(row.value, li.count + 1), k - 1)
  }

  lemma FoundCons(li: LineInfo, row: Row, rows: seq<Row>, pc: nat)
    requires row.address <= pc
    ensures Found(li, [row] + rows, pc) == Found(LineInfo(row, li.count + 1), rows, pc)
  {
    assert ([row] + rows)[1..] == rows;
  }

  lemma ReachedCons(row: Row, rows: seq<Row>, pc: nat)
    ensures Reached([row] + rows, pc) == if row.address <= pc then 1 + Reached(rows, pc) else 0
  {
    assert ([row] + rows)[1..] == rows;
  }

  /** One more row in front, for the table, the search and the fused run. */
  lemma OneTurn(h: Header, m: seq<Byte>, pe: nat, pc: nat, s: Machine, li: LineInfo, k: nat, s': Machine, row: Row)
    requires h.lrange > 0 && k > 0 && s.p < pe && Step(h, m, s) == (s', Some(row))
    ensures Rows(h, m, pe, s, k) == [row] + Rows(h, m, pe, s', k - 1)
    ensures Fused(h, m, pe, pc, s, li, k) ==
            if pc < row.address then (li, true) else Fused(h, m, pe, pc, s', LineInfo(row, li.count + 1), k - 1)
  {
    hide Step;
  }

  lemma NoRowTurn(h: Header, m: seq<Byte>, pe: nat, pc: nat, s: Machine, li: LineInfo, k: nat, s': Machine)
    requires h.lrange > 0 && k > 0 && s.p < pe && Step(h, m, s) == (s', None)
    ensures Rows(h, m, pe, s, k) == Rows(h, m, pe, s', k - 1)
    ensures Fused(h, m, pe, pc, s, li, k) == Fused(h, m, pe, pc, s', li, k - 1)
  {
    hide Step;
    assert [] + Rows(h, m, pe, s', k - 1) == Rows(h, m, pe, s', k - 1);
  }

  lemma NoTurn(h: Header, m: seq<Byte>, pe: nat, pc: nat, s: Machine, li: LineInfo, k: nat)
    requires h.lrange > 0 && (k == 0 || s.p >= pe)
    ensures Rows(h, m, pe, s, k) == [] && Fused(h, m, pe, pc, s, li, k) == (li, false)
  {
  }

  /** After any number of turns the fused run has what a search of the rows built so far finds,
      and it has returned exactly if one of them is beyond pc. */
  lemma {:induction false} FusedFinds(h: Header, m: seq<Byte>, pe: nat, pc: nat, s: Machine, li: LineInfo, k: nat)
    requires h.lrange > 0
    ensures var rows := Rows(h, m, pe, s, k);
            Fused(h, m, pe, pc, s, li, k) == (Found(li, rows, pc), Reached(rows, pc) < |rows|)
    decreases k
  {
    hide Step, Found, Reached, Rows, Fused;
    if k == 0 || s.p >= pe {
      NoRows(li, pc);
      NoTurn(h, m, pe, pc, s, li, k);
    } else {
      var next := Step(h, m, s);
      if next.1 == None {
        NoRowTurn(h, m, pe, pc, s, li, k, next.0);
        FusedFinds(h, m, pe, pc, next.0, li, k - 1);
      } else {
        var row := next.1.value;
        var rest := Rows(h, m, pe, next.0, k - 1);
        OneTurn(h, m, pe, pc, s, li, k, next.0, row);
        ReachedCons(row, rest, pc);
        if row.address <= pc {
          FusedFinds(h, m, pe, pc, next.0, LineInfo(row, li.count + 1), k - 1);
          FoundCons(li, row, rest, pc);
        } else {
          NothingFound(li, row, rest, pc);
        }
      }
    }
  }

  lemma NoRows(li: LineInfo, pc: nat)
    ensures Found(li, [], pc) == li && Reached([], pc) == 0
  {
  }

  lemma NothingFound(li: LineInfo, row: Row, rows: seq<Row>, pc: nat)
    requires row.address > pc
    ensures Found(li, [row] + rows, pc) == li
  {
  }

  /** The run ends within k turns, by reaching the end of the program or by the pc test. */
  ghost predicate Ends(h: Header, m: seq<Byte>, pe: nat, pc: nat, s: Machine, k: nat)
    requires h.lrange > 0
    decreases k
  {
    s.p >= pe || (k > 0 &&
      var (s', row) := Step(h, m, s);
      (row.Some? && pc < row.value.address) || Ends(h, m, pe, pc, s', k - 1))
  }

  /** Once the run has ended, building more of the table changes nothing. */
  lemma {:induction false} FoundForGood(h: Header, m: seq<Byte>, pe: nat, pc: nat, s: Machine, li: LineInfo, k: nat, k': nat)
    requires h.lrange > 0 && k <= k' && Ends(h, m, pe, pc, s, k)
    ensures Fused(h, m, pe, pc, s, li, k') == Fused(h, m, pe, pc, s, li, k)
    decreases k
  {
    hide Step;
    if s.p < pe {
      var (s', row) := Step(h, m, s);
      if row == None {
        FoundForGood(h, m, pe, pc, s', li, k - 1, k' - 1);
      } else if row.value.address <= pc {
        FoundForGood(h, m, pe, pc, s', LineInfo(row.value, li.count + 1), k - 1, k' - 1);
      }
    }
  }

  // ---------------------------------------------------------------- when a program ends

  /** The loop comes back. */
  ghost predicate Returns(h: Header, m: seq<Byte>, pe: nat, pc: nat, s: Machine)
    requires h.lrange > 0
  {
    exists k: nat :: Ends(h, m, pe, pc, s, k)
  }

  /** At p stands an unknown extended opcode whose size takes the pointer round to p or before it. */
  predicate JumpsBack(m: seq<Byte>, p: nat) {
    var (size, q) := U(m, (p + 1) % WORD);
    ByteAt(m, p) == 0 && ByteAt(m, q) !in {1, 2, 3} && q + size >= WORD && q + size - WORD <= p
  }

  /** A turn moves the pointer forward exactly if it does not stand at such an opcode. */
  lemma AdvancesIff(h: Header, m: seq<Byte>, s: Machine)
    requires h.lrange > 0 && s.p < |m| && Inside(m)
    ensures Step(h, m, s).0.p > s.p <==> !JumpsBack(m, s.p)
  {
    hide U, S, Fixed, ByteAt, SkipFile, LineDelta, AddressDelta;
    OperandPlace(m, s.p + 1);
    FixedPlace(m, s.p + 1, 2, h.big);
    var (size, q) := U(m, s.p + 1);
    FixedPlace(m, q + 1, h.addrSize, h.big);
    FilePlace(m, q + 1);
  }

  lemma FixedPlace(m: seq<Byte>, p: nat, n: nat, big: bool)
    requires p + 8 < WORD
    ensures p <= Fixed(m, p, n, big).1
  {
    hide Lsb, Msb;
  }

  lemma FilePlace(m: seq<Byte>, p: nat)
    requires Inside(m) && p <= |m| + 2
    ensures SkipFile(m, p) > p
  {
    hide U, S;
    StringPlace(m, p);
    var q := SkipString(m, p);
    OperandPlace(m, q);
    OperandPlace(m, U(m, q).1);
    OperandPlace(m, U(m, U(m, q).1).1);
  }

  lemma {:induction false} StringPlace(m: seq<Byte>, p: nat)
    ensures p < SkipString(m, p) <= (if p < |m| then |m| else p) + 1
    decreases |m| - p
  {
    if p < |m| && m[p] != 0 { StringPlace(m, p + 1); }
  }

  /** None of the next k turns is at such an opcode. */
  ghost predicate Forward(h: Header, m: seq<Byte>, pe: nat, s: Machine, k: nat)
    requires h.lrange > 0
    decreases k
  {
    k > 0 && s.p < pe ==> !JumpsBack(m, s.p) && Forward(h, m, pe, Step(h, m, s).0, k - 1)
  }

  function Left(pe: nat, s: Machine): nat { if s.p < pe then pe - s.p else 0 }

  /** A run without such a turn ends, after at most one turn for each byte that is left, whatever pc
      is asked for; so a run that never comes back takes such a turn among its first. */
  lemma {:induction false} ForwardEnds(h: Header, m: seq<Byte>, pe: nat, pc: nat, s: Machine)
    requires h.lrange > 0 && pe <= |m| && Inside(m)
    ensures Forward(h, m, pe, s, Left(pe, s)) ==> Ends(h, m, pe, pc, s, Left(pe, s))
    ensures !Returns(h, m, pe, pc, s) ==> !Forward(h, m, pe, s, Left(pe, s))
    decreases Left(pe, s)
  {
    hide Step, JumpsBack;
    if s.p < pe && Forward(h, m, pe, s, Left(pe, s)) {
      AdvancesIff(h, m, s);
      var (s', row) := Step(h, m, s);
      ForwardSooner(h, m, pe, s', Left(pe, s'), Left(pe, s) - 1);
      ForwardEnds(h, m, pe, pc, s');
      EndsLater(h, m, pe, pc, s', Left(pe, s'), Left(pe, s) - 1);
    }
  }

  lemma {:induction false} ForwardSooner(h: Header, m: seq<Byte>, pe: nat, s: Machine, k: nat, k': nat)
    requires h.lrange > 0 && k <= k' && Forward(h, m, pe, s, k')
    ensures Forward(h, m, pe, s, k)
    decreases k
  {
    hide Step, JumpsBack;
    if k > 0 && s.p < pe { ForwardSooner(h, m, pe, Step(h, m, s).0, k - 1, k' - 1); }
  }

  lemma {:induction false} EndsLater(h: Header, m: seq<Byte>, pe: nat, pc: nat, s: Machine, k: nat, k': nat)
    requires h.lrange > 0 && k <= k' && Ends(h, m, pe, pc, s, k)
    ensures Ends(h, m, pe, pc, s, k')
    decreases k
  {
    hide Step;
    if s.p < pe {
      var (s', row) := Step(h, m, s);
      if !(row.Some? && pc < row.value.address) { EndsLater(h, m, pe, pc, s', k - 1, k' - 1); }
    }
  }

  // ---------------------------------------------------------------- exactly when it ends

  /** Where the pointer goes depends on the bytes alone. */
  function NextP(h: Header, m: seq<Byte>, p: nat): nat
    requires h.lrange > 0
  {
    Step(h, m, Machine(p, Reset(h))).0.p
  }

  /** Where it is after k turns. */
  function Pointer(h: Header, m: seq<Byte>, p: nat, k: nat): nat
    requires h.lrange > 0
  {
    if k == 0 then p else NextP(h, m, Pointer(h, m, p, k - 1))
  }

  /** The turn of any machine moves the pointer so, and keeps addresses below 2^64. */
  lemma PointerOnly(h: Header, m: seq<Byte>, s: Machine)
    requires h.lrange > 0 && s.regs.address < WORD
    ensures var (s', row) := Step(h, m, s);
            s'.p == NextP(h, m, s.p) && s'.regs.address < WORD && (row.Some? ==> row.value.address < WORD)
  {
    hide U, S, Fixed, ByteAt, SkipFile, LineDelta, AddressDelta;
    FixedBound(m, (U(m, (s.p + 1) % WORD).1 + 1) % WORD, h.addrSize, h.big);
  }

  lemma {:induction false} PointerStep(h: Header, m: seq<Byte>, p: nat, k: nat)
    requires h.lrange > 0
    ensures Pointer(h, m, NextP(h, m, p), k) == Pointer(h, m, p, k + 1)
    decreases k
  {
    hide NextP;
    if k > 0 { PointerStep(h, m, p, k - 1); }
  }

  /** It reaches the end within k turns. */
  ghost predicate Reaches(h: Header, m: seq<Byte>, pe: nat, p: nat, k: nat)
    requires h.lrange > 0
  {
    exists j: nat :: j <= k && Pointer(h, m, p, j) >= pe
  }

  lemma ReachesStep(h: Header, m: seq<Byte>, pe: nat, p: nat, k: nat)
    requires h.lrange > 0
    ensures p >= pe ==> Reaches(h, m, pe, p, k)
    ensures p < pe ==> (Reaches(h, m, pe, p, k) <==> k > 0 && Reaches(h, m, pe, NextP(h, m, p), k - 1))
  {
    hide NextP;
    assert Pointer(h, m, p, 0) == p;
    if p < pe && Reaches(h, m, pe, p, k) {
      var j: nat :| j <= k && Pointer(h, m, p, j) >= pe;
      PointerStep(h, m, p, j - 1);
    }
    if p < pe && k > 0 && Reaches(h, m, pe, NextP(h, m, p), k - 1) {
      var j: nat :| j <= k - 1 && Pointer(h, m, NextP(h, m, p), j) >= pe;
      PointerStep(h, m, p, j);
    }
  }

  /** For the largest pc, which no row is beyond, a run ends when the pointer reaches the end. */
  lemma {:induction false} EndsAt(h: Header, m: seq<Byte>, pe: nat, pc: nat, s: Machine, k: nat)
    requires h.lrange > 0 && pc >= WORD - 1 && s.regs.address < WORD
    ensures Ends(h, m, pe, pc, s, k) <==> Reaches(h, m, pe, s.p, k)
    decreases k
  {
    hide Step, NextP, Reaches;
    ReachesStep(h, m, pe, s.p, k);
    if s.p < pe && k > 0 {
      PointerOnly(h, m, s);
      EndsAt(h, m, pe, pc, Step(h, m, s).0, k - 1);
    }
  }

  /** Too many numbers for too few values. */
  lemma {:induction false} Repeats(xs: seq<nat>, n: nat) returns (i: nat, j: nat)
    requires |xs| > n && forall k :: 0 <= k < |xs| ==> xs[k] < n
    ensures i < j < |xs| && xs[i] == xs[j]
    decreases n
  {
    assert xs[0] < n;
    if a :| 0 <= a < |xs| && xs[a] == n - 1 {
      if b :| 0 <= b < |xs| && b != a && xs[b] == n - 1 {
        i, j := if a < b then a else b, if a < b then b else a;
      } else {
        var rest := xs[..a] + xs[a + 1..];
        i, j := Repeats(rest, n - 1);
        i, j := if i < a then i else i + 1, if j < a then j else j + 1;
      }
    } else {
      i, j := Repeats(xs, n - 1);
    }
  }

  /** Once the pointer has been somewhere twice it goes round and round. */
  lemma {:induction false} GoesRound(h: Header, m: seq<Byte>, p: nat, i: nat, j: nat, d: nat)
    requires h.lrange > 0 && Pointer(h, m, p, i) == Pointer(h, m, p, j)
    ensures Pointer(h, m, p, i + d) == Pointer(h, m, p, j + d)
    decreases d
  {
    hide NextP;
    if d > 0 { GoesRound(h, m, p, i, j, d - 1); }
  }

  lemma {:induction false} StaysInside(h: Header, m: seq<Byte>, pe: nat, p: nat, i: nat, j: nat, k: nat)
    requires h.lrange > 0 && i < j <= pe && Pointer(h, m, p, i) == Pointer(h, m, p, j)
    requires forall x: nat :: x <= pe ==> Pointer(h, m, p, x) < pe
    ensures Pointer(h, m, p, k) < pe
    decreases k
  {
    hide NextP, Pointer;
    if k > j {
      GoesRound(h, m, p, i, j, k - j);
      StaysInside(h, m, pe, p, i, j, k - (j - i));
    }
  }

  /** So such a run comes back if and only if it does within as many turns as the program has bytes. */
  lemma ReturnsIff(h: Header, m: seq<Byte>, pe: nat, pc: nat, s: Machine)
    requires h.lrange > 0 && pc >= WORD - 1 && s.regs.address < WORD
    ensures Returns(h, m, pe, pc, s) <==> Ends(h, m, pe, pc, s, pe)
  {
    hide Ends, Pointer, NextP;
    forall k: nat ensures Ends(h, m, pe, pc, s, k) <==> Reaches(h, m, pe, s.p, k) {
      EndsAt(h, m, pe, pc, s, k);
    }
    if Returns(h, m, pe, pc, s) && !Ends(h, m, pe, pc, s, pe) {
      var i, j := Repeats(seq(pe + 1, x requires 0 <= x => Pointer(h, m, s.p, x)), pe);
      forall k: nat ensures Pointer(h, m, s.p, k) < pe { StaysInside(h, m, pe, s.p, i, j, k); }
    }
  }

  lemma SameFound(h: Header, m: seq<Byte>, pe: nat, pc: nat, s: Machine, li: LineInfo, k: nat, k': nat)
    requires h.lrange > 0 && Ends(h, m, pe, pc, s, k) && Ends(h, m, pe, pc, s, k')
    ensures Found(li, Rows(h, m, pe, s, k'), pc) == Found(li, Rows(h, m, pe, s, k), pc)
  {
    hide Step, Found, Reached, Rows, Ends, Fused;
    if k <= k' { FoundForGood(h, m, pe, pc, s, li, k, k'); } else { FoundForGood(h, m, pe, pc, s, li, k', k); }
    FusedFinds(h, m, pe, pc, s, li, k);
    FusedFinds(h, m, pe, pc, s, li, k');
  }

  /** _dwarf_lineno_run_program, for every program on which it comes back: it leaves what a search of
      the whole table finds, however much of the table is built. */
  method RunProgram(h: Header, m: seq<Byte>, start: nat, pe: nat, pc: nat, init: LineInfo) returns (li: LineInfo)
    requires HeaderOk(h) && Returns(h, m, pe, pc, Machine(start, Reset(h)))
    ensures forall k: nat :: Ends(h, m, pe, pc, Machine(start, Reset(h)), k) ==>
              li == Found(init, Rows(h, m, pe, Machine(start, Reset(h)), k), pc)
  {
    hide Step, Found, Reached, Rows;
    var s := Machine(start, Reset(h));
    ghost var k: nat :| Ends(h, m, pe, pc, s, k);
    FusedFinds(h, m, pe, pc, s, init, k);
    forall k': nat | Ends(h, m, pe, pc, s, k') ensures Found(init, Rows(h, m, pe, s, k'), pc) == Found(init, Rows(h, m, pe, s, k), pc) {
      SameFound(h, m, pe, pc, s, init, k, k');
    }
    li := init;
    ghost var j: nat := k;
    ghost var result := Fused(h, m, pe, pc, s, init, k);
    while s.p < pe
      invariant Ends(h, m, pe, pc, s, j) && Fused(h, m, pe, pc, s, li, j) == result
      decreases j
    {
      var (s', row) := Step(h, m, s);
      if row.Some? {
        if pc < row.value.address {
          return;
        }
        li := LineInfo(row.value, li.count + 1);
      }
      s := s';
      j := j - 1;
    }
  }

  const BACKWARDS: seq<Byte> := [0, 0xFA, 0xFF, 0xFF, 0xFF, 0x0F, 0x80]

  /** Operands can indeed move the pointer back: these bytes, an unknown extended opcode with
      the size -6, bring every machine back to where it was. */
  lemma EndlessProgram(h: Header, r: Regs)
    requires h.lrange > 0
    ensures Step(h, BACKWARDS, Machine(0, r)) == (Machine(0, r), None)
  {
    hide U, S, SkipFile, Standard, Fixed, LineDelta, AddressDelta;
    BackwardsOperand();
    assert ByteAt(BACKWARDS, 0) == 0 && ByteAt(BACKWARDS, 6) == 0x80;
  }

  /** So on these bytes the loop never comes back, whatever pc is asked for. */
  lemma NeverReturns(h: Header, r: Regs, pc: nat)
    requires h.lrange > 0
    ensures JumpsBack(BACKWARDS, 0) && !Returns(h, BACKWARDS, 7, pc, Machine(0, r))
  {
    hide Step, U;
    BackwardsOperand();
    assert ByteAt(BACKWARDS, 0) == 0 && ByteAt(BACKWARDS, 6) == 0x80;
    forall k: nat ensures !Ends(h, BACKWARDS, 7, pc, Machine(0, r), k) { NeverEnds(h, r, pc, k); }
  }

  lemma {:induction false} NeverEnds(h: Header, r: Regs, pc: nat, k: nat)
    requires h.lrange > 0
    ensures !Ends(h, BACKWARDS, 7, pc, Machine(0, r), k)
  {
    hide Step;
    if k > 0 {
      EndlessProgram(h, r);
      NeverEnds(h, r, pc, k - 1);
    }
  }

  lemma BackwardsOperand()
    ensures U(BACKWARDS, 1) == (WORD - 6, 6)
  {
    hide U;
    assert BACKWARDS[1..6] == MINUS_SIX;
    MinusSix(BACKWARDS, 1);
  }
}
