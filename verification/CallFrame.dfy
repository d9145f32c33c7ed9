/** kern/libdwarf_frame.c: the call frame program (section 6.4.2 of DWARF Version 4), stopped at a
    requested location, with one shadow table for both the initial and the remembered rules. */
module CallFrame {
  import opened Wrappers
  import opened Leb128
  import opened DwarfRead

  const TABLE_SIZE: nat := 66
  const UNDEFINED_VALUE: nat := 1034
  const SAME_VALUE: nat := 1035
  const CFA_VALUE: nat := 1436
  const REGNUMS: nat := 0x1_0000

  const OFFSET: nat := 0
  const VAL_OFFSET: nat := 1
  const EXPRESSION: nat := 2
  const VAL_EXPRESSION: nat := 3

  const RESTORE_EXTENDED: nat := 0x06
  const REMEMBER_STATE: nat := 0x0a
  const RESTORE_STATE: nat := 0x0b

  datatype Rule = Rule(offsetRelevant: bool, valueType: nat, regnum: nat, offset: nat, block: nat)

  datatype Table = Table(cfa: Rule, rules: seq<Rule>)

  /** The factors of the CIE, as 64-bit words, and how fixed-size operands are read. */
  datatype Factors = Factors(caf: nat, daf: nat, pointerSize: nat, big: bool)

  /** The read pointer, the location, the location of the row and the rules. */
  datatype Core = Core(p: nat, pc: nat, rowPc: nat, table: Table)

  datatype Error = RegNumTooHigh | InstrExecError

  /** What one instruction does; Moved is a new location, Panic a failed kernel assertion. */
  datatype Outcome = Next(c: Core) | Moved(c: Core) | Fail(error: Error) | Panic

  predicate Goes(o: Outcome) { o.Next? || o.Moved? }

  // ---------------------------------------------------------------- one instruction

  function Goto(c: Core, p: nat, pc: nat): Outcome { Moved(c.(p := p % WORD, pc := pc % WORD)) }

  /** A rule for reg, refused if the table is too small for it. */
  function SetRule(c: Core, p: nat, reg: nat, rule: Rule): Outcome {
    if reg >= |c.table.rules| then Fail(RegNumTooHigh)
    else Next(Core(p, c.pc, c.pc, c.table.(rules := c.table.rules[reg := rule])))
  }

  function SetCfa(c: Core, p: nat, rule: Rule): Outcome { Next(Core(p, c.pc, c.pc, c.table.(cfa := rule))) }

  function OldRule(t: Table, reg: nat): Rule {
    if reg < |t.rules| then t.rules[reg] else t.cfa
  }

  /** A product of 64-bit words. */
  function Scaled(a: nat, b: nat): nat { a * b % WORD }

  /** It is the one 64-bit word that differs from the product by a multiple of 2^64. */
  lemma ScaledIs(a: nat, b: nat, w: nat)
    ensures Scaled(a, b) == w <==> w < WORD && exists k: int :: Product(a, b) == w + Shift(k)
  {
    hide Product, Shift;
    ScaledParts(a, b);
    if w < WORD && exists k: int :: Product(a, b) == w + Shift(k) {
      var k: int :| Product(a, b) == w + Shift(k);
      SameWord(Product(a, b), w, k);
    }
  }

  function Product(a: nat, b: nat): nat { a * b }

  function Shift(k: int): int { k * WORD }

  lemma ScaledParts(a: nat, b: nat)
    ensures Scaled(a, b) < WORD && Product(a, b) == Scaled(a, b) + Shift(Product(a, b) / WORD)
    ensures Scaled(a, b) == Product(a, b) % WORD
  {
  }

  lemma SameWord(n: nat, w: nat, k: int)
    requires w < WORD && n == w + Shift(k)
    ensures n % WORD == w
  {
  }

  /** A rule for reg at a factored offset from the CFA. */
  function SetOffset(c: Core, p: nat, reg: nat, valueType: nat, offset: nat): Outcome {
    SetRule(c, p, reg, Rule(true, valueType, CFA_VALUE, offset, OldRule(c.table, reg).block))
  }

  /** A rule for reg held in a block of expression bytes, which the pointer steps over. */
  function SetBlock(m: seq<Byte>, c: Core, p: nat, reg: nat, valueType: nat): Outcome {
    var (len, q) := U(m, p);
    SetRule(c, (q + len) % WORD, reg, Rule(false, valueType, OldRule(c.table, reg).regnum, len, q))
  }

  function SetPlain(c: Core, p: nat, reg: nat, regnum: nat): Outcome {
    SetRule(c, p, reg, OldRule(c.table, reg).(offsetRelevant := false, regnum := regnum % REGNUMS))
  }

  /** Instructions that move the location, with the pointer at the operand. */
  function LocationInst(f: Factors, m: seq<Byte>, c: Core, q: nat, op: nat): Outcome {
    if op == 0x01 then var (a, q') := Fixed(m, q, f.pointerSize, f.big); Goto(c, q', a)
    else
      var (d, q') := Fixed(m, q, if op == 0x02 then 1 else if op == 0x03 then 2 else 4, f.big);
      Goto(c, q', c.pc + Scaled(d, f.caf))
  }

  /** Instructions that define the CFA. */
  function CfaInst(f: Factors, m: seq<Byte>, c: Core, q: nat, op: nat): Outcome {
    var cfa := c.table.cfa;
    var (u, q1) := U(m, q);
    if op == 0x0c then var (off, q2) := U(m, q1); SetCfa(c, q2, Rule(true, OFFSET, u % REGNUMS, off, cfa.block))
    else if op == 0x0d then SetCfa(c, q1, cfa.(regnum := u % REGNUMS))
    else if op == 0x0e then SetCfa(c, q1, Rule(true, OFFSET, cfa.regnum, u, cfa.block))
    else if op == 0x0f then SetCfa(c, (q1 + u) % WORD, Rule(false, EXPRESSION, cfa.regnum, u, q1))
    else if op == 0x12 then
      var (off, q2) := S(m, q1);
      SetCfa(c, q2, Rule(true, OFFSET, u % REGNUMS, Scaled(off, f.daf), cfa.block))
    else
      var (off, q2) := S(m, q);
      SetCfa(c, q2, Rule(true, OFFSET, cfa.regnum, Scaled(off, f.daf), cfa.block))
  }

  /** Instructions that give register reg, whose number has been read up to q, a rule. */
  function RegisterInst(f: Factors, m: seq<Byte>, c: Core, reg: nat, q: nat, op: nat): Outcome {
    var (u, qu) := U(m, q);
    var (s, qs) := S(m, q);
    if op == 0x05 then SetOffset(c, qu, reg, OFFSET, Scaled(u, f.daf))
    else if op == 0x07 then SetPlain(c, q, reg, UNDEFINED_VALUE)
    else if op == 0x09 then SetPlain(c, qu, reg, u)
    else if op == 0x10 then SetBlock(m, c, q, reg, EXPRESSION)
    else if op == 0x11 then SetOffset(c, qs, reg, OFFSET, Scaled(s, f.daf))
    else if op == 0x14 then SetOffset(c, qu, reg, VAL_OFFSET, Scaled(u, f.daf))
    else if op == 0x15 then SetOffset(c, qs, reg, VAL_OFFSET, Scaled(s, f.daf))
    else SetBlock(m, c, q, reg, VAL_EXPRESSION)
  }

  /** The same-value rule, which alone leaves the row's location as it was. */
  function SameInst(c: Core, reg: nat, q: nat): Outcome {
    match SetPlain(c, q, reg, SAME_VALUE)
    case Next(c') => Next(c'.(rowPc := c.rowPc))
    case other => other
  }

  predicate IsCfa(op: nat) { 0x0c <= op <= 0x0f || op == 0x12 || op == 0x13 }

  predicate IsRegister(op: nat) {
    op == 0x05 || op == 0x07 || op == 0x09 || op == 0x10 || op == 0x11 || op == 0x14 || op == 0x15 || op == 0x16
  }

  predicate IsRestore(op: nat) { op / 64 == 3 || op == RESTORE_EXTENDED }

  /** Any instruction but remember_state, with init the rules that restore gives back and saved the
      table that restore_state gives back. */
  function Apply(f: Factors, m: seq<Byte>, c: Core, init: Table, saved: Option<Table>): Outcome {
    var op := ByteAt(m, c.p);
    var q := (c.p + 1) % WORD;
    if op == 0 then Next(c.(p := q))
    else if op / 64 == 1 then Goto(c, q, c.pc + Scaled(op % 64, f.caf))
    else if op / 64 == 2 then
      var (u, q') := U(m, q);
      SetOffset(c, q', op % 64, OFFSET, Scaled(u, f.daf))
    else if op / 64 == 3 then SetRule(c, q, op % 64, OldRule(init, op % 64))
    else if 1 <= op <= 4 then LocationInst(f, m, c, q, op)
    else if op == RESTORE_EXTENDED then SetRule(c, U(m, q).1, U(m, q).0, OldRule(init, U(m, q).0))
    else if op == 0x08 then SameInst(c, U(m, q).0, U(m, q).1)
    else if IsRegister(op) then RegisterInst(f, m, c, U(m, q).0, U(m, q).1, op)
    else if op == RESTORE_STATE then
      if saved == None then Panic else Next(Core(q, c.pc, c.pc, saved.value))
    else if IsCfa(op) then CfaInst(f, m, c, q, op)
    else Fail(InstrExecError)
  }

  /** The interpreter: one shadow table, and whether remember_state has been executed. */
  datatype Machine = Machine(core: Core, shadow: Table, remembered: bool)

  function OpAt(m: seq<Byte>, s: Machine): nat { ByteAt(m, s.core.p) }

  function Inst(f: Factors, m: seq<Byte>, s: Machine): Outcome {
    if OpAt(m, s) == REMEMBER_STATE then Next(s.core.(p := (s.core.p + 1) % WORD))
    else Apply(f, m, s.core, s.shadow, if s.remembered then Some(s.shadow) else None)
  }

  /** The machine once the instruction at its pointer has left c. */
  function After(m: seq<Byte>, s: Machine, c: Core): Machine {
    if OpAt(m, s) == REMEMBER_STATE then Machine(c, s.core.table, true) else Machine(c, s.shadow, s.remembered)
  }

  /** The machine when a run starts: the shadow is a copy of the table. */
  function Start(p: nat, pc: nat, t: Table): Machine { Machine(Core(p, pc, pc, t), t, false) }

  // ---------------------------------------------------------------- no rule outside the table

  ghost predicate Sized(s: Machine, n: nat) { |s.core.table.rules| == n && |s.shadow.rules| == n }

  /** The locations are 64-bit and both tables keep their size: no byte stream reaches past them. */
  lemma InstKeepsTables(f: Factors, m: seq<Byte>, s: Machine, n: nat)
    requires Sized(s, n) && s.core.pc < WORD
    ensures var o := Inst(f, m, s);
            Goes(o) ==> Sized(After(m, s, o.c), n) && o.c.pc < WORD
  {
    hide U, S, Fixed, ByteAt;
  }

  /** Of the rules for registers, an instruction other than restore_state changes at most one. */
  lemma OneRule(f: Factors, m: seq<Byte>, s: Machine) returns (r: nat)
    requires OpAt(m, s) != RESTORE_STATE && Inst(f, m, s).Next?
    ensures |Inst(f, m, s).c.table.rules| == |s.core.table.rules|
    ensures forall i :: 0 <= i < |s.core.table.rules| && i != r ==>
              Inst(f, m, s).c.table.rules[i] == s.core.table.rules[i]
  {
    hide U, S, Fixed, ByteAt;
    var q := (s.core.p + 1) % WORD;
    r := if OpAt(m, s) >= 64 then OpAt(m, s) % 64 else U(m, q).0;
  }

  /** Why an instruction fails: its opcode is none of the standard's, it names a register beyond the table, or
      it restores a state when none was remembered. */
  lemma FailsIff(f: Factors, m: seq<Byte>, s: Machine)
    ensures var op := OpAt(m, s);
            var u := U(m, (s.core.p + 1) % WORD).0;
            var n := |s.core.table.rules|;
            && (Inst(f, m, s) == Fail(InstrExecError) <==> 0x17 <= op < 0x40)
            && (Inst(f, m, s) == Panic <==> op == 0x0b && !s.remembered)
            && (Inst(f, m, s) == Fail(RegNumTooHigh) <==>
                  || (op >= 0x80 && op % 64 >= n)
                  || (op in [0x05, 0x06, 0x07, 0x08, 0x09, 0x10, 0x11, 0x14, 0x15, 0x16] && u >= n))
  {
    hide U, S, Fixed;
  }

  /** A move changes the location and nothing of the row. */
  lemma MovedKeepsRow(f: Factors, m: seq<Byte>, s: Machine)
    requires Inst(f, m, s).Moved?
    ensures var c := Inst(f, m, s).c; c.table == s.core.table && c.rowPc == s.core.rowPc && c.pc < WORD
    ensures After(m, s, Inst(f, m, s).c).shadow == s.shadow
  {
    hide U, S, Fixed, ByteAt;
  }

  // ---------------------------------------------------------------- the whole table, and the run that stops

  /** A row: the location it starts at, its rules and the location reported with it. */
  datatype Row = Row(pc: nat, table: Table, rowPc: nat)

  datatype Status = Running | Ended | Failed(error: Error) | Panicked

  function RowOf(c: Core): Row { Row(c.pc, c.table, c.rowPc) }

  function Stuck(o: Outcome): Status
    requires o.Fail? || o.Panic?
  {
    if o.Fail? then Failed(o.error) else Panicked
  }

  /** The rows of k turns of a run that ignores the requested location, the open one last. */
  function Full(f: Factors, m: seq<Byte>, pe: nat, s: Machine, k: nat): (r: (seq<Row>, Status))
    ensures |r.0| > 0
    decreases k
  {
    if s.core.p >= pe then ([RowOf(s.core)], Ended)
    else if k == 0 then ([RowOf(s.core)], Running)
    else
      var o := Inst(f, m, s);
      if o.Next? then Full(f, m, pe, After(m, s, o.c), k - 1)
      else if o.Moved? then
        var rest := Full(f, m, pe, After(m, s, o.c), k - 1);
        ([RowOf(s.core)] + rest.0, rest.1)
      else ([RowOf(s.core)], Stuck(o))
  }

  /** The same turns when a move beyond req ends the run. */
  function Early(f: Factors, m: seq<Byte>, pe: nat, req: nat, s: Machine, k: nat): (Row, Status)
    decreases k
  {
    if s.core.p >= pe then (RowOf(s.core), Ended)
    else if k == 0 then (RowOf(s.core), Running)
    else
      var o := Inst(f, m, s);
      if o.Next? then Early(f, m, pe, req, After(m, s, o.c), k - 1)
      else if o.Moved? then
        if req < o.c.pc then (RowOf(s.core), Ended) else Early(f, m, pe, req, After(m, s, o.c), k - 1)
      else (RowOf(s.core), Stuck(o))
  }

  /** The row before the first later one that starts beyond req. */
  function Pick(rows: seq<Row>, req: nat): (n: nat)
    requires |rows| > 0
    ensures n < |rows| && (forall i :: 0 < i <= n ==> rows[i].pc <= req) && (n + 1 < |rows| ==> rows[n + 1].pc > req)
  {
    if |rows| == 1 || rows[1].pc > req then 0 else 1 + Pick(rows[1..], req)
  }

  /** Full and Early, one instruction at a time. */
  lemma StayTurn(f: Factors, m: seq<Byte>, pe: nat, req: nat, s: Machine, k: nat)
    requires k > 0 && s.core.p < pe && Inst(f, m, s).Next?
    ensures var s' := After(m, s, Inst(f, m, s).c);
            Full(f, m, pe, s, k) == Full(f, m, pe, s', k - 1) && Early(f, m, pe, req, s, k) == Early(f, m, pe, req, s', k - 1)
  {
    hide Inst, After;
  }

  lemma MoveTurn(f: Factors, m: seq<Byte>, pe: nat, req: nat, s: Machine, k: nat)
    requires k > 0 && s.core.p < pe && Inst(f, m, s).Moved?
    ensures var s' := After(m, s, Inst(f, m, s).c);
            && Full(f, m, pe, s, k).0 == [RowOf(s.core)] + Full(f, m, pe, s', k - 1).0
            && Full(f, m, pe, s, k).1 == Full(f, m, pe, s', k - 1).1
            && Early(f, m, pe, req, s, k) ==
               if req < s'.core.pc then (RowOf(s.core), Ended) else Early(f, m, pe, req, s', k - 1)
  {
    hide Inst;
  }

  lemma LastTurn(f: Factors, m: seq<Byte>, pe: nat, req: nat, s: Machine, k: nat)
    requires k == 0 || s.core.p >= pe || Inst(f, m, s).Fail? || Inst(f, m, s).Panic?
    ensures Full(f, m, pe, s, k).0 == [RowOf(s.core)]
    ensures Early(f, m, pe, req, s, k) == (RowOf(s.core), Full(f, m, pe, s, k).1)
  {
    hide Inst, After;
  }

  lemma {:induction false} FirstRow(f: Factors, m: seq<Byte>, pe: nat, s: Machine, k: nat)
    ensures Full(f, m, pe, s, k).0[0].pc == s.core.pc
    decreases k
  {
    hide Inst;
    if k > 0 && s.core.p < pe && Inst(f, m, s).Next? {
      NextKeepsLocation(f, m, s);
      FirstRow(f, m, pe, After(m, s, Inst(f, m, s).c), k - 1);
    }
  }

  lemma PickCons(row: Row, rows: seq<Row>, req: nat)
    requires |rows| > 0
    ensures Pick([row] + rows, req) == if rows[0].pc > req then 0 else 1 + Pick(rows, req)
  {
    assert ([row] + rows)[1..] == rows;
  }

  /** Stopping early leaves the row of the full table that the search picks; the run ends well if it
      stopped, and otherwise exactly as the full run does. */
  lemma {:induction false} EarlyIsPick(f: Factors, m: seq<Byte>, pe: nat, req: nat, s: Machine, k: nat)
    ensures var (rows, status) := Full(f, m, pe, s, k);
            var n := Pick(rows, req);
            Early(f, m, pe, req, s, k) == (rows[n], if n + 1 < |rows| then Ended else status)
    decreases k
  {
    hide Inst, After, Full, Early, Pick;
    if k > 0 && s.core.p < pe && Inst(f, m, s).Next? {
      StayTurn(f, m, pe, req, s, k);
      EarlyIsPick(f, m, pe, req, After(m, s, Inst(f, m, s).c), k - 1);
    } else if k > 0 && s.core.p < pe && Inst(f, m, s).Moved? {
      var s' := After(m, s, Inst(f, m, s).c);
      MoveTurn(f, m, pe, req, s, k);
      FirstRow(f, m, pe, s', k - 1);
      PickCons(RowOf(s.core), Full(f, m, pe, s', k - 1).0, req);
      if s'.core.pc <= req { EarlyIsPick(f, m, pe, req, s', k - 1); }
    } else {
      LastTurn(f, m, pe, req, s, k);
    }
  }

  ghost predicate Increasing(rows: seq<Row>) { forall i, j :: 0 <= i < j < |rows| ==> rows[i].pc <= rows[j].pc }

  /** With increasing locations that is the last row of the whole table at or before req. */
  lemma PickIsLast(rows: seq<Row>, req: nat)
    requires |rows| > 0 && rows[0].pc <= req && Increasing(rows)
    ensures var n := Pick(rows, req);
            rows[n].pc <= req && forall i :: n < i < |rows| ==> rows[i].pc > req
  {
    var n := Pick(rows, req);
    forall i | n < i < |rows| ensures rows[i].pc > req {
      assert rows[n + 1].pc <= rows[i].pc;
    }
  }

  /** A request for the largest address never stops a run. */
  lemma {:induction false} LargestNeverStops(f: Factors, m: seq<Byte>, pe: nat, s: Machine, k: nat)
    requires s.core.pc < WORD
    ensures var (rows, status) := Full(f, m, pe, s, k);
            Early(f, m, pe, WORD - 1, s, k) == (rows[|rows| - 1], status)
    decreases k
  {
    hide Inst, Full, Early, Pick;
    if k > 0 && s.core.p < pe && Inst(f, m, s).Next? {
      StayTurn(f, m, pe, WORD - 1, s, k);
      NextKeepsLocation(f, m, s);
      LargestNeverStops(f, m, pe, After(m, s, Inst(f, m, s).c), k - 1);
    } else if k > 0 && s.core.p < pe && Inst(f, m, s).Moved? {
      MoveTurn(f, m, pe, WORD - 1, s, k);
      MovedKeepsRow(f, m, s);
      LargestNeverStops(f, m, pe, After(m, s, Inst(f, m, s).c), k - 1);
    } else {
      LastTurn(f, m, pe, WORD - 1, s, k);
    }
  }

  lemma NextKeepsLocation(f: Factors, m: seq<Byte>, s: Machine)
    requires Inst(f, m, s).Next?
    ensures Inst(f, m, s).c.pc == s.core.pc
  {
    hide U, S, Fixed, ByteAt;
  }

  /** Once a run has ended, further turns change nothing. */
  lemma {:induction false} EarlyForGood(f: Factors, m: seq<Byte>, pe: nat, req: nat, s: Machine, k: nat, k': nat)
    requires k <= k' && Early(f, m, pe, req, s, k).1 != Running
    ensures Early(f, m, pe, req, s, k') == Early(f, m, pe, req, s, k)
    decreases k
  {
    hide Inst, After, Early;
    if k > 0 && s.core.p < pe && Inst(f, m, s).Next? {
      StayTurn(f, m, pe, req, s, k);
      StayTurn(f, m, pe, req, s, k');
      EarlyForGood(f, m, pe, req, After(m, s, Inst(f, m, s).c), k - 1, k' - 1);
    } else if k > 0 && s.core.p < pe && Inst(f, m, s).Moved? {
      MoveTurn(f, m, pe, req, s, k);
      MoveTurn(f, m, pe, req, s, k');
      var s' := After(m, s, Inst(f, m, s).c);
      if s'.core.pc <= req { EarlyForGood(f, m, pe, req, s', k - 1, k' - 1); }
    } else {
      StoppedForGood(f, m, pe, req, s, k, k');
    }
  }

  lemma StoppedForGood(f: Factors, m: seq<Byte>, pe: nat, req: nat, s: Machine, k: nat, k': nat)
    requires k <= k' && (k == 0 || s.core.p >= pe || Inst(f, m, s).Fail? || Inst(f, m, s).Panic?)
    requires Early(f, m, pe, req, s, k).1 != Running
    ensures Early(f, m, pe, req, s, k') == Early(f, m, pe, req, s, k)
  {
    hide Inst, After;
  }

  // ---------------------------------------------------------------- restore and remember, against a stack

  /** The machine of the standard: the initial rules are kept, and remember_state pushes. */
  datatype StackMachine = StackMachine(core: Core, init: Table, stack: seq<Table>)

  function Top(r: StackMachine): Option<Table> {
    if r.stack == [] then None else Some(r.stack[0])
  }

  function StackOp(m: seq<Byte>, r: StackMachine): nat { ByteAt(m, r.core.p) }

  function StackInst(f: Factors, m: seq<Byte>, r: StackMachine): Outcome {
    if StackOp(m, r) == REMEMBER_STATE then Next(r.core.(p := (r.core.p + 1) % WORD))
    else Apply(f, m, r.core, r.init, Top(r))
  }

  function StackAfter(m: seq<Byte>, r: StackMachine, c: Core): StackMachine {
    if StackOp(m, r) == REMEMBER_STATE then StackMachine(c, r.init, [r.core.table] + r.stack)
    else if StackOp(m, r) == RESTORE_STATE && r.stack != [] then StackMachine(c, r.init, r.stack[1..])
    else StackMachine(c, r.init, r.stack)
  }

  /** What the shadow stands for: the initial rules until the first remember_state, and then what
      was remembered last. */
  ghost predicate SameState(s: Machine, r: StackMachine) {
    && s.core == r.core
    && (!s.remembered ==> s.shadow == r.init && r.stack == [])
    && (r.stack != [] ==> r.stack == [s.shadow])
  }

  /** The side condition on the next instruction: remembering is not nested, a state is restored
      only while one is remembered, and no rule is restored once a state has been remembered. */
  ghost predicate Proper(m: seq<Byte>, r: StackMachine, remembered: bool) {
    && (StackOp(m, r) == REMEMBER_STATE ==> r.stack == [])
    && (StackOp(m, r) == RESTORE_STATE ==> r.stack != [])
    && (IsRestore(StackOp(m, r)) ==> !remembered)
  }

  lemma RestoreOnlyUsesInit(f: Factors, m: seq<Byte>, c: Core, a: Table, b: Table, saved: Option<Table>)
    requires !IsRestore(ByteAt(m, c.p))
    ensures Apply(f, m, c, a, saved) == Apply(f, m, c, b, saved)
  {
    hide U, S, Fixed, ByteAt;
  }

  lemma RestoreStateOnlyUsesSaved(f: Factors, m: seq<Byte>, c: Core, init: Table, a: Option<Table>, b: Option<Table>)
    requires ByteAt(m, c.p) != RESTORE_STATE
    ensures Apply(f, m, c, init, a) == Apply(f, m, c, init, b)
  {
    hide U, S, Fixed, ByteAt;
  }

  /** A proper instruction does the same on both machines. */
  lemma ProperInst(f: Factors, m: seq<Byte>, s: Machine, r: StackMachine)
    requires SameState(s, r) && Proper(m, r, s.remembered)
    ensures Inst(f, m, s) == StackInst(f, m, r)
    ensures forall c :: SameState(After(m, s, c), StackAfter(m, r, c))
  {
    hide Apply, ByteAt;
    var saved := if s.remembered then Some(s.shadow) else None;
    if StackOp(m, r) == RESTORE_STATE {
      RestoreOnlyUsesInit(f, m, s.core, s.shadow, r.init, saved);
    } else {
      RestoreStateOnlyUsesSaved(f, m, s.core, r.init, Top(r), saved);
      if !IsRestore(StackOp(m, r)) { RestoreOnlyUsesInit(f, m, s.core, s.shadow, r.init, saved); }
    }
  }

  /** The full run of the stack machine. */
  function StackFull(f: Factors, m: seq<Byte>, pe: nat, r: StackMachine, k: nat): (seq<Row>, Status)
    decreases k
  {
    if r.core.p >= pe then ([RowOf(r.core)], Ended)
    else if k == 0 then ([RowOf(r.core)], Running)
    else
      var o := StackInst(f, m, r);
      if o.Next? then StackFull(f, m, pe, StackAfter(m, r, o.c), k - 1)
      else if o.Moved? then
        var rest := StackFull(f, m, pe, StackAfter(m, r, o.c), k - 1);
        ([RowOf(r.core)] + rest.0, rest.1)
      else ([RowOf(r.core)], Stuck(o))
  }

  ghost predicate ProperRun(f: Factors, m: seq<Byte>, pe: nat, r: StackMachine, remembered: bool, k: nat)
    decreases k
  {
    k > 0 && r.core.p < pe ==>
      Proper(m, r, remembered) &&
      var o := StackInst(f, m, r);
      Goes(o) ==>
        ProperRun(f, m, pe, StackAfter(m, r, o.c), remembered || StackOp(m, r) == REMEMBER_STATE, k - 1)
  }

  /** A proper program has the rows the standard gives it. */
  lemma {:induction false} ProperRows(f: Factors, m: seq<Byte>, pe: nat, s: Machine, r: StackMachine, k: nat)
    requires SameState(s, r) && ProperRun(f, m, pe, r, s.remembered, k)
    ensures Full(f, m, pe, s, k) == StackFull(f, m, pe, r, k)
    decreases k
  {
    hide Apply, ByteAt, Proper;
    if k > 0 && s.core.p < pe {
      ProperInst(f, m, s, r);
      var o := Inst(f, m, s);
      if Goes(o) {
        ProperRows(f, m, pe, After(m, s, o.c), StackAfter(m, r, o.c), k - 1);
      }
    }
  }

  /** The code after k instructions that all stay in the program. */
  function Ran(f: Factors, m: seq<Byte>, s: Machine, k: nat): Option<Machine>
    decreases k
  {
    if k == 0 then Some(s)
    else
      var before := Ran(f, m, s, k - 1);
      if before == None then None
      else
        var o := Inst(f, m, before.value);
        if Goes(o) then Some(After(m, before.value, o.c)) else None
  }

  /** The table at the last remember_state among those instructions. */
  function LastRemembered(f: Factors, m: seq<Byte>, s: Machine, k: nat): Option<Table>
    decreases k
  {
    if k == 0 then None
    else
      var before := Ran(f, m, s, k - 1);
      if before.Some? && OpAt(m, before.value) == REMEMBER_STATE then Some(before.value.core.table)
      else LastRemembered(f, m, s, k - 1)
  }

  /** What the one shadow table holds in every run: that table, or the initial rules if there is none. */
  lemma {:induction false} ShadowHolds(f: Factors, m: seq<Byte>, p: nat, pc: nat, init: Table, k: nat)
    requires pc < WORD && Ran(f, m, Start(p, pc, init), k).Some?
    ensures var s, last := Ran(f, m, Start(p, pc, init), k).value, LastRemembered(f, m, Start(p, pc, init), k);
            && Sized(s, |init.rules|) && s.core.pc < WORD
            && s.remembered == last.Some? && s.shadow == (if last.Some? then last.value else init)
    decreases k
  {
    hide Inst;
    if k > 0 {
      ShadowHolds(f, m, p, pc, init, k - 1);
      InstKeepsTables(f, m, Ran(f, m, Start(p, pc, init), k - 1).value, |init.rules|);
    }
  }

  /** The register a restore instruction is for: in its opcode, or in the operand of restore_extended. */
  function Restored(m: seq<Byte>, s: Machine): nat {
    if OpAt(m, s) == RESTORE_EXTENDED then U(m, (s.core.p + 1) % WORD).0 else OpAt(m, s) % 64
  }

  /** So, in every run, restoring one register's rule is refused exactly if the table has none for it, and
      gives back the initial one exactly if no state has been remembered, or the one remembered last has
      that rule. */
  lemma RestoreIff(f: Factors, m: seq<Byte>, p: nat, pc: nat, init: Table, k: nat)
    requires pc < WORD && Ran(f, m, Start(p, pc, init), k).Some?
    requires IsRestore(OpAt(m, Ran(f, m, Start(p, pc, init), k).value))
    ensures var s, last := Ran(f, m, Start(p, pc, init), k).value, LastRemembered(f, m, Start(p, pc, init), k);
            var o, reg := Inst(f, m, s), Restored(m, s);
            && (last.Some? ==> |last.value.rules| == |init.rules|)
            && if reg >= |init.rules| then o == Fail(RegNumTooHigh)
               else o.Next? && |o.c.table.rules| == |init.rules|
                    && (o.c.table.rules[reg] == init.rules[reg] <==> last == None || last.value.rules[reg] == init.rules[reg])
  {
    hide U, S, Fixed, ByteAt, Ran, LastRemembered;
    ShadowHolds(f, m, p, pc, init, k);
  }

  /** And restoring the state gives back the whole table remembered last; with none, and only then, it
      stops the kernel. */
  lemma RestoreStateGives(f: Factors, m: seq<Byte>, p: nat, pc: nat, init: Table, k: nat)
    requires pc < WORD && Ran(f, m, Start(p, pc, init), k).Some?
    requires OpAt(m, Ran(f, m, Start(p, pc, init), k).value) == RESTORE_STATE
    ensures var o, last := Inst(f, m, Ran(f, m, Start(p, pc, init), k).value), LastRemembered(f, m, Start(p, pc, init), k);
            && (o.Panic? <==> last == None) && (last.Some? ==> o.Next? && o.c.table == last.value)
  {
    hide Ran, LastRemembered, ByteAt;
    ShadowHolds(f, m, p, pc, init, k);
  }

  const SHARED: seq<Byte> := [0x08, 0x00, 0x0a, 0xc0]

  /** The shared shadow at work: same_value r0, remember_state, restore r0 leaves the same-value
      rule where the standard gives back the initial one. */
  lemma SharedShadow(f: Factors, t: Table)
    requires |t.rules| == TABLE_SIZE && t.rules[0].regnum != SAME_VALUE
    ensures Full(f, SHARED, 4, Start(0, 0, t), 3).0[0].table.rules == t.rules[0 := Same(t)]
    ensures StackFull(f, SHARED, 4, StackMachine(Core(0, 0, 0, t), t, []), 3).0[0].table == t
  {
    hide Apply, ByteAt;
    SharedBytes();
    var t1 := t.(rules := t.rules[0 := Same(t)]);
    var c1, c2 := Core(2, 0, 0, t1), Core(3, 0, 0, t1);
    FirstOfThree(f, Core(0, 0, 0, t), t, None);
    ThirdOfThree(f, c2, t1, Some(t1));
    ThirdOfThree(f, c2, t, Some(t1));
    assert t1.rules[0 := t1.rules[0]] == t1.rules && t1.rules[0 := t.rules[0]] == t.rules;
    StayTurn(f, SHARED, 4, 0, Machine(c2, t1, true), 1);
    StayTurn(f, SHARED, 4, 0, Machine(c1, t, false), 2);
    StayTurn(f, SHARED, 4, 0, Start(0, 0, t), 3);
    StackStay(f, StackMachine(c2, t, [t1]), 1);
    StackStay(f, StackMachine(c1, t, []), 2);
    StackStay(f, StackMachine(Core(0, 0, 0, t), t, []), 3);
  }

  function Same(t: Table): Rule
    requires |t.rules| > 0
  {
    t.rules[0].(offsetRelevant := false, regnum := SAME_VALUE)
  }

  lemma SharedBytes()
    ensures ByteAt(SHARED, 0) == 0x08 && ByteAt(SHARED, 2) == REMEMBER_STATE && ByteAt(SHARED, 3) == 0xc0
    ensures U(SHARED, 1) == (0, 2)
  {
    var e: seq<Byte> := [0x00];
    assert SHARED[1..2] == e;
    GroupsEnd(SHARED, 1, 0, 0);
    ZeroGroup();
  }

  lemma ZeroGroup()
    ensures Or(0, Group(0, 0)) == 0 && !More(0)
  {
  }

  lemma FirstOfThree(f: Factors, c: Core, init: Table, saved: Option<Table>)
    requires c.p == 0 && c.rowPc == c.pc && |c.table.rules| > 0
    ensures Apply(f, SHARED, c, init, saved) == Next(c.(p := 2, table := c.table.(rules := c.table.rules[0 := Same(c.table)])))
  {
    hide U, ByteAt;
    SharedBytes();
  }

  lemma ThirdOfThree(f: Factors, c: Core, init: Table, saved: Option<Table>)
    requires c.p == 3 && c.rowPc == c.pc && |c.table.rules| == |init.rules| > 0
    ensures Apply(f, SHARED, c, init, saved) == Next(c.(p := 4, table := c.table.(rules := c.table.rules[0 := init.rules[0]])))
  {
    hide U, ByteAt;
    SharedBytes();
  }

  lemma StackStay(f: Factors, r: StackMachine, k: nat)
    requires k > 0 && r.core.p < 4 && StackInst(f, SHARED, r).Next?
    ensures StackFull(f, SHARED, 4, r, k) == StackFull(f, SHARED, 4, StackAfter(SHARED, r, StackInst(f, SHARED, r).c), k - 1)
  {
    hide StackInst, StackAfter;
  }

  // ---------------------------------------------------------------- when a program ends

  /** The loop comes back. */
  ghost predicate Returns(f: Factors, m: seq<Byte>, pe: nat, req: nat, s: Machine) {
    exists k: nat :: Early(f, m, pe, req, s, k).1 != Running
  }

  /** The block at q has a length that takes the pointer round to p or before it. */
  predicate BlockBack(m: seq<Byte>, q: nat, p: nat) {
    var (len, q') := U(m, q);
    q' + len >= WORD && q' + len - WORD <= p
  }

  /** At p stands an instruction with such a block. */
  predicate JumpsBack(m: seq<Byte>, p: nat) {
    var q := (p + 1) % WORD;
    || (ByteAt(m, p) == 0x0f && BlockBack(m, q, p))
    || (ByteAt(m, p) in {0x10, 0x16} && BlockBack(m, U(m, q).1, p))
  }

  /** An instruction moves the pointer forward exactly if it does not hold such a block. */
  lemma AdvancesIff(f: Factors, m: seq<Byte>, s: Machine)
    requires s.core.p < |m| && Inside(m) && Goes(Inst(f, m, s))
    ensures Inst(f, m, s).c.p > s.core.p <==> !JumpsBack(m, s.core.p)
  {
    hide Apply, U, ByteAt, BlockBack;
    if OpAt(m, s) != REMEMBER_STATE {
      ApplyAdvances(f, m, s.core, s.shadow, if s.remembered then Some(s.shadow) else None);
    }
  }

  lemma ApplyAdvances(f: Factors, m: seq<Byte>, c: Core, init: Table, saved: Option<Table>)
    requires c.p < |m| && Inside(m) && Goes(Apply(f, m, c, init, saved))
    ensures Apply(f, m, c, init, saved).c.p > c.p <==> !JumpsBack(m, c.p)
  {
    hide U, S, Fixed, ByteAt, Scaled, OldRule, LocationInst, CfaInst, RegisterInst, JumpsBack;
    var op, q := ByteAt(m, c.p), c.p + 1;
    OperandPlace(m, q);
    PlainForward(m, c.p);
    if 1 <= op <= 4 { LocationAdvances(f, m, c, q, op); }
    else if IsRegister(op) { RegisterAdvances(f, m, c, U(m, q).0, U(m, q).1, op); }
    else if IsCfa(op) { CfaAdvances(f, m, c, op); }
  }

  lemma PlainForward(m: seq<Byte>, p: nat)
    ensures ByteAt(m, p) !in {0x0f, 0x10, 0x16} ==> !JumpsBack(m, p)
  {
    hide BlockBack, ByteAt, U;
  }

  lemma LocationAdvances(f: Factors, m: seq<Byte>, c: Core, q: nat, op: nat)
    requires c.p < q < |m| + 16 && Inside(m)
    ensures LocationInst(f, m, c, q, op).c.p > c.p
  {
    hide Lsb, Msb, Scaled;
  }

  lemma RegisterAdvances(f: Factors, m: seq<Byte>, c: Core, reg: nat, q: nat, op: nat)
    requires c.p < |m| && Inside(m) && ByteAt(m, c.p) == op && IsRegister(op) && U(m, c.p + 1) == (reg, q)
    requires Goes(RegisterInst(f, m, c, reg, q, op))
    ensures RegisterInst(f, m, c, reg, q, op).c.p > c.p <==> !JumpsBack(m, c.p)
  {
    hide U, S, ByteAt, Scaled, OldRule;
    OperandPlace(m, c.p + 1);
    OperandPlace(m, q);
  }

  lemma CfaAdvances(f: Factors, m: seq<Byte>, c: Core, op: nat)
    requires c.p < |m| && Inside(m) && ByteAt(m, c.p) == op && IsCfa(op)
    ensures CfaInst(f, m, c, c.p + 1, op).c.p > c.p <==> !JumpsBack(m, c.p)
  {
    hide U, S, ByteAt, Scaled;
    OperandPlace(m, c.p + 1);
    OperandPlace(m, U(m, c.p + 1).1);
  }

  /** None of the next k turns is at such an instruction. */
  ghost predicate Forward(f: Factors, m: seq<Byte>, pe: nat, s: Machine, k: nat)
    decreases k
  {
    k > 0 && s.core.p < pe ==>
      !JumpsBack(m, s.core.p) &&
      var o := Inst(f, m, s);
      Goes(o) ==> Forward(f, m, pe, After(m, s, o.c), k - 1)
  }

  function Left(pe: nat, s: Machine): nat { if s.core.p < pe then pe - s.core.p else 0 }

  /** A run without such a turn ends, after at most one turn for each byte that is left, whatever
      location is asked for; so a run that never comes back takes such a turn among its first. */
  lemma {:induction false} ForwardEnds(f: Factors, m: seq<Byte>, pe: nat, req: nat, s: Machine)
    requires pe <= |m| && Inside(m)
    ensures Forward(f, m, pe, s, Left(pe, s)) ==> Early(f, m, pe, req, s, Left(pe, s)).1 != Running
    ensures !Returns(f, m, pe, req, s) ==> !Forward(f, m, pe, s, Left(pe, s))
    decreases Left(pe, s)
  {
    hide Inst, JumpsBack, Early;
    if s.core.p < pe && Forward(f, m, pe, s, Left(pe, s)) {
      var o := Inst(f, m, s);
      if Goes(o) {
        AdvancesIff(f, m, s);
        var s' := After(m, s, o.c);
        ForwardSooner(f, m, pe, s', Left(pe, s'), Left(pe, s) - 1);
        ForwardEnds(f, m, pe, req, s');
        EarlyForGood(f, m, pe, req, s', Left(pe, s'), Left(pe, s) - 1);
        if o.Next? { StayTurn(f, m, pe, req, s, Left(pe, s)); } else { MoveTurn(f, m, pe, req, s, Left(pe, s)); }
      } else {
        StuckTurn(f, m, pe, req, s, Left(pe, s));
      }
    } else if s.core.p >= pe {
      AtEnd(f, m, pe, req, s, 0);
    }
  }

  lemma StuckTurn(f: Factors, m: seq<Byte>, pe: nat, req: nat, s: Machine, k: nat)
    requires k > 0 && s.core.p < pe && !Goes(Inst(f, m, s))
    ensures Early(f, m, pe, req, s, k).1 == Stuck(Inst(f, m, s)) != Running
  {
    hide Inst, After;
  }

  lemma {:induction false} ForwardSooner(f: Factors, m: seq<Byte>, pe: nat, s: Machine, k: nat, k': nat)
    requires k <= k' && Forward(f, m, pe, s, k')
    ensures Forward(f, m, pe, s, k)
    decreases k
  {
    hide Inst, JumpsBack;
    if k > 0 && s.core.p < pe && Goes(Inst(f, m, s)) { ForwardSooner(f, m, pe, After(m, s, Inst(f, m, s).c), k - 1, k' - 1); }
  }

  const BACKWARDS: seq<Byte> := [0x0f, 0xFA, 0xFF, 0xFF, 0xFF, 0x0F]

  /** def_cfa_expression with a block of length -6, which brings the pointer back to where it was. */
  lemma EndlessFrame(f: Factors, c: Core, init: Table, saved: Option<Table>)
    requires c.p == 0
    ensures Apply(f, BACKWARDS, c, init, saved).Next? && Apply(f, BACKWARDS, c, init, saved).c.p == 0
  {
    hide U, S, Fixed, LocationInst, RegisterInst;
    BackwardsLength();
    assert ByteAt(BACKWARDS, 0) == 0x0f;
  }

  /** So on these bytes the loop never comes back, whatever location is asked for. */
  lemma NeverReturns(f: Factors, req: nat, s: Machine)
    requires s.core.p == 0
    ensures JumpsBack(BACKWARDS, 0) && !Returns(f, BACKWARDS, 6, req, s)
  {
    hide U, Early;
    BackwardsLength();
    assert ByteAt(BACKWARDS, 0) == 0x0f;
    forall k: nat ensures Early(f, BACKWARDS, 6, req, s, k).1 == Running { NeverEnds(f, req, s, k); }
  }

  lemma {:induction false} NeverEnds(f: Factors, req: nat, s: Machine, k: nat)
    requires s.core.p == 0
    ensures Early(f, BACKWARDS, 6, req, s, k).1 == Running
    decreases k
  {
    hide Apply;
    assert ByteAt(BACKWARDS, 0) == 0x0f;
    if k > 0 {
      EndlessFrame(f, s.core, s.shadow, if s.remembered then Some(s.shadow) else None);
      NeverEnds(f, req, After(BACKWARDS, s, Inst(f, BACKWARDS, s).c), k - 1);
    }
  }

  lemma BackwardsLength()
    ensures U(BACKWARDS, 1) == (WORD - 6, 6)
  {
    hide U;
    assert BACKWARDS[1..6] == MINUS_SIX;
    MinusSix(BACKWARDS, 1);
  }

  // ---------------------------------------------------------------- the code

  /** Every row of every run has rules for exactly the registers of the table. */
  lemma {:induction false} RowsSized(f: Factors, m: seq<Byte>, pe: nat, s: Machine, k: nat, n: nat)
    requires Sized(s, n) && s.core.pc < WORD
    ensures forall i :: 0 <= i < |Full(f, m, pe, s, k).0| ==> |Full(f, m, pe, s, k).0[i].table.rules| == n
    decreases k
  {
    hide Inst;
    if k > 0 && s.core.p < pe && Goes(Inst(f, m, s)) {
      InstKeepsTables(f, m, s, n);
      RowsSized(f, m, pe, After(m, s, Inst(f, m, s).c), k - 1, n);
    }
  }

  /** _dwarf_frame_regtable_copy; a missing destination is the shadow table, made as long as src. */
  method RegtableCopy(dest: Option<Table>, src: Table) returns (t: Table)
    ensures t.cfa == src.cfa && |t.rules| == if dest.Some? then |dest.value.rules| else |src.rules|
    ensures forall i :: 0 <= i < |t.rules| && i < |src.rules| ==> t.rules[i] == src.rules[i]
    ensures forall i :: |src.rules| <= i < |t.rules| ==> t.rules[i] == dest.value.rules[i].(regnum := UNDEFINED_VALUE)
    ensures |t.rules| == |src.rules| ==> t == src
  {
    var rules := if dest.Some? then dest.value.rules else src.rules;
    ghost var old' := rules;
    var i := 0;
    while i < |rules| && i < |src.rules|
      invariant i <= |rules| == |old'| && i <= |src.rules|
      invariant forall j :: 0 <= j < i ==> rules[j] == src.rules[j]
      invariant forall j :: i <= j < |rules| ==> rules[j] == old'[j]
    {
      rules := rules[i := src.rules[i]];
      i := i + 1;
    }
    ghost var n := i;
    while i < |rules|
      invariant n <= i <= |rules| == |old'|
      invariant forall j :: 0 <= j < n ==> rules[j] == src.rules[j]
      invariant forall j :: n <= j < i ==> rules[j] == old'[j].(regnum := UNDEFINED_VALUE)
      invariant forall j :: i <= j < |rules| ==> rules[j] == old'[j]
    {
      rules := rules[i := rules[i].(regnum := UNDEFINED_VALUE)];
      i := i + 1;
    }
    t := Table(src.cfa, rules);
  }

  function InitialRule(): Rule { Rule(false, OFFSET, SAME_VALUE, 0, 0) }

  /** The cleared table with every register at its initial value. */
  function Initial(): Table { Table(InitialRule().(regnum := 0), seq(TABLE_SIZE, i => InitialRule())) }

  /** Where a run over insts of the given length stands before its first instruction. */
  datatype Program = Program(insts: nat, len: nat)

  function End(g: Program): nat { (g.insts + g.len) % WORD }

  class Frames {
    var table: Table
    var shadow: Table

    /** _dwarf_frame_run_inst, for every program on which it comes back: the row a search of the whole
        table picks, and the status the whole run ends with if the search did not stop it, however
        many turns of the whole run are taken. */
    method RunInst(f: Factors, m: seq<Byte>, g: Program, pc: nat, req: nat) returns (status: Status, rowPc: nat)
      requires Returns(f, m, End(g), req, Start(g.insts, pc, table))
      modifies this
      ensures forall k: nat :: Early(f, m, End(g), req, old(Start(g.insts, pc, table)), k).1 != Running ==>
                Picked(Full(f, m, End(g), old(Start(g.insts, pc, table)), k), req, status, table, rowPc)
    {
      hide Inst, Early, Full, Pick;
      ghost var k: nat :| Early(f, m, End(g), req, Start(g.insts, pc, table), k).1 != Running;
      ghost var start := Start(g.insts, pc, table);
      forall k': nat | Early(f, m, End(g), req, start, k').1 != Running
        ensures Early(f, m, End(g), req, start, k') == Early(f, m, End(g), req, start, k)
      {
        SameEnd(f, m, End(g), req, start, k, k');
      }
      forall k': nat { EarlyIsPick(f, m, End(g), req, start, k'); }
      rowPc := pc;
      shadow := RegtableCopy(None, table);
      var s := Machine(Core(g.insts, pc, rowPc, table), shadow, false);
      ghost var j := k;
      ghost var goal := Early(f, m, End(g), req, s, k);
      while s.core.p < End(g)
        invariant table == s.core.table && shadow == s.shadow && rowPc == s.core.rowPc
        invariant Early(f, m, End(g), req, s, j) == goal && goal.1 != Running
        decreases j
      {
        var o := Inst(f, m, s);
        if o.Fail? || o.Panic? {
          OverTurn(f, m, End(g), req, s, j);
          status := Stuck(o);
          return;
        }
        StillRunning(f, m, End(g), req, s, j);
        if o.Moved? {
          MovedKeepsRow(f, m, s);
          MoveTurn(f, m, End(g), req, s, j);
          if req < o.c.pc { status := Ended; return; }
        } else {
          StayTurn(f, m, End(g), req, s, j);
        }
        s := After(m, s, o.c);
        table, shadow, rowPc := s.core.table, s.shadow, s.core.rowPc;
        j := j - 1;
      }
      AtEnd(f, m, End(g), req, s, j);
      status := Ended;
    }

    /** _dwarf_frame_get_internal_table, likewise: the CIE's program makes the initial rules, its whole
        table built whatever the request; the FDE's program then runs from them up to the request. */
    method GetInternalTable(f: Factors, m: seq<Byte>, cie: Program, fde: Program, initloc: nat, req: nat)
      returns (status: Status, rowPc: nat)
      requires Returns(f, m, End(cie), WORD - 1, Start(cie.insts, 0, Initial()))
      requires forall k: nat :: FdeNeeded(f, m, cie, initloc, req, k) ==> Returns(f, m, End(fde), req, FdeStart(f, m, cie, fde, initloc, k))
      modifies this
      ensures forall k: nat :: CieRun(f, m, cie, k).1 != Running && !FdeNeeded(f, m, cie, initloc, req, k) ==>
                status == CieRun(f, m, cie, k).1 && (status == Ended ==> table == InitialRules(f, m, cie, k))
      ensures forall k: nat, n: nat ::
                && FdeNeeded(f, m, cie, initloc, req, k)
                && Early(f, m, End(fde), req, FdeStart(f, m, cie, fde, initloc, k), n).1 != Running ==>
                Picked(Full(f, m, End(fde), FdeStart(f, m, cie, fde, initloc, k), n), req, status, table, rowPc)
    {
      hide Early, Full, Pick;
      table := Table(Rule(false, OFFSET, 0, 0, 0), []);
      var i := 0;
      while i < TABLE_SIZE
        invariant 0 <= i <= TABLE_SIZE && table.cfa == Initial().cfa && table.rules == Initial().rules[..i]
      {
        table := table.(rules := table.rules + [Rule(false, OFFSET, SAME_VALUE, 0, 0)]);
        i := i + 1;
      }
      assert table == Initial();
      ghost var start := Start(cie.insts, 0, Initial());
      status, rowPc := RunInst(f, m, cie, 0, WORD - 1);
      forall k: nat | CieRun(f, m, cie, k).1 != Running
        ensures status == CieRun(f, m, cie, k).1 && (status == Ended ==> table == InitialRules(f, m, cie, k))
      {
        WholeCie(f, m, cie, k, status, table, rowPc);
      }
      if status == Ended && req >= initloc {
        ghost var rules := table;
        ghost var k: nat :| Early(f, m, End(cie), WORD - 1, start, k).1 != Running;
        LargestNeverStops(f, m, End(cie), start, k);
        assert FdeNeeded(f, m, cie, initloc, req, k) && FdeStart(f, m, cie, fde, initloc, k) == Start(fde.insts, initloc, table);
        status, rowPc := RunInst(f, m, fde, initloc, req);
      }
    }
  }

  /** The result of a run is the row the search picks, and its end the run's if it did not stop. */
  ghost predicate Picked(full: (seq<Row>, Status), req: nat, status: Status, table: Table, rowPc: nat)
    requires |full.0| > 0
  {
    var (rows, st) := full;
    var n := Pick(rows, req);
    && status == (if n + 1 < |rows| then Ended else st)
    && (status == Ended ==> table == rows[n].table && rowPc == rows[n].rowPc)
  }

  lemma SameEnd(f: Factors, m: seq<Byte>, pe: nat, req: nat, s: Machine, k: nat, k': nat)
    requires Early(f, m, pe, req, s, k).1 != Running && Early(f, m, pe, req, s, k').1 != Running
    ensures Early(f, m, pe, req, s, k') == Early(f, m, pe, req, s, k)
  {
    hide Early;
    if k <= k' { EarlyForGood(f, m, pe, req, s, k, k'); } else { EarlyForGood(f, m, pe, req, s, k', k); }
  }

  lemma WholeCie(f: Factors, m: seq<Byte>, cie: Program, k: nat, status: Status, table: Table, rowPc: nat)
    requires CieRun(f, m, cie, k).1 != Running
    requires forall k: nat :: Early(f, m, End(cie), WORD - 1, Start(cie.insts, 0, Initial()), k).1 != Running ==>
               Picked(Full(f, m, End(cie), Start(cie.insts, 0, Initial()), k), WORD - 1, status, table, rowPc)
    ensures status == CieRun(f, m, cie, k).1 && (status == Ended ==> table == InitialRules(f, m, cie, k))
  {
    hide Early, Full, Pick;
    LargestNeverStops(f, m, End(cie), Start(cie.insts, 0, Initial()), k);
    EarlyIsPick(f, m, End(cie), WORD - 1, Start(cie.insts, 0, Initial()), k);
  }

  /** The CIE's whole run, and the rules it leaves. */
  function CieRun(f: Factors, m: seq<Byte>, cie: Program, k: nat): (r: (seq<Row>, Status))
    ensures |r.0| > 0
  {
    Full(f, m, End(cie), Start(cie.insts, 0, Initial()), k)
  }

  function InitialRules(f: Factors, m: seq<Byte>, cie: Program, k: nat): Table {
    var rows := CieRun(f, m, cie, k).0;
    rows[|rows| - 1].table
  }

  /** The FDE's run starts from those rules. */
  function FdeStart(f: Factors, m: seq<Byte>, cie: Program, fde: Program, initloc: nat, k: nat): Machine {
    Start(fde.insts, initloc, InitialRules(f, m, cie, k))
  }

  predicate FdeNeeded(f: Factors, m: seq<Byte>, cie: Program, initloc: nat, req: nat, k: nat) {
    CieRun(f, m, cie, k).1 == Ended && req >= initloc
  }

  lemma StillRunning(f: Factors, m: seq<Byte>, pe: nat, req: nat, s: Machine, k: nat)
    requires s.core.p < pe && Early(f, m, pe, req, s, k).1 != Running
    ensures k > 0
  {
  }

  lemma OverTurn(f: Factors, m: seq<Byte>, pe: nat, req: nat, s: Machine, k: nat)
    requires s.core.p < pe && (Inst(f, m, s).Fail? || Inst(f, m, s).Panic?)
    requires Early(f, m, pe, req, s, k).1 != Running
    ensures Early(f, m, pe, req, s, k) == (RowOf(s.core), Stuck(Inst(f, m, s)))
  {
    hide Inst, After;
  }

  lemma AtEnd(f: Factors, m: seq<Byte>, pe: nat, req: nat, s: Machine, k: nat)
    requires s.core.p >= pe
    ensures Early(f, m, pe, req, s, k) == (RowOf(s.core), Ended)
  {
  }
}
