/** Line number programs as lists of instructions (sections 6.2.5.1 to 6.2.5.3 of DWARF Version 4):
    their bytes, and what they mean without any bytes. */
module LineAsm {
  import opened Wrappers
  import opened Leb128
  import opened DwarfRead
  import opened LineProgram

  /** Operands that are stored in LEB128 are 64-bit words; those of fixed size are numbers. */
  datatype Instr =
    | Copy
    | AdvancePc(n: bv64)
    | AdvanceLine(d: bv64)
    | SetFile(n: bv64)
    | SetColumn(n: bv64)
    | NegateStmt
    | BasicBlock
    | ConstAddPc
    | FixedAdvancePc(k: nat)
    | PrologueEnd
    | EpilogueBegin
    | SetIsa(n: bv64)
    | EndSequence
    | SetAddress(k: nat)
    | DefineFile(len: bv64, name: seq<Byte>, dir: bv64, time: bv64, size: bv64)
    | Unknown(len: bv64, op: Byte, data: seq<Byte>)
    | UnknownStandard(code: nat)
    | Special(dline: int, advance: nat)

  // ---------------------------------------------------------------- meaning

  /** The registers at the beginning of a sequence. */
  function InitialRegs(h: Header): Regs {
    Regs(address := 0, file := 1, line := 1, column := 0, isStmt := h.defstmt, basicBlock := false, prologueEnd := false, epilogueBegin := false)
  }

  /** The row with the values of the registers, and the registers after it. */
  function Appended(r: Regs): (Regs, Option<Row>) {
    (r.(basicBlock := false, prologueEnd := false, epilogueBegin := false),
     Some(Row(address := r.address, file := r.file, line := r.line, column := r.column, basicBlock := r.basicBlock,
              isStmt := r.isStmt, endSequence := false)))
  }

  /** What an instruction does to the registers, and the row it appends. */
  function Exec(h: Header, r: Regs, i: Instr): (Regs, Option<Row>)
    requires h.lrange > 0 && h.opbase <= 255
  {
    match i
    case Copy => Appended(r)
    case AdvancePc(n) => (r.(address := (r.address + Num(n) * h.minlen) % WORD), None)
    case AdvanceLine(d) => (r.(line := (r.line + Num(d)) % WORD), None)
    case SetFile(n) => (r.(file := Num(n)), None)
    case SetColumn(n) => (r.(column := Num(n)), None)
    case NegateStmt => (r.(isStmt := if r.isStmt == 0 then 1 else 0), None)
    case BasicBlock => (r.(basicBlock := true), None)
    case ConstAddPc => (r.(address := (r.address + (255 - h.opbase) / h.lrange * h.minlen) % WORD), None)
    case FixedAdvancePc(k) => (r.(address := (r.address + k) % WORD), None)
    case PrologueEnd => (r.(prologueEnd := true), None)
    case EpilogueBegin => (r.(epilogueBegin := true), None)
    case SetIsa(_) => (r, None)
    case EndSequence => (InitialRegs(h), None)
    case SetAddress(k) => (r.(address := k), None)
    case DefineFile(_, _, _, _, _) => (r, None)
    case Unknown(_, _, _) => (r, None)
    case UnknownStandard(_) => (r, None)
    case Special(dline, advance) =>
      var r' := r.(line := (r.line + dline) % WORD, address := (r.address + advance * h.minlen) % WORD);
      Appended(r')
  }

  /** The rows of a whole program. */
  function ExecRows(h: Header, r: Regs, prog: seq<Instr>): seq<Row>
    requires h.lrange > 0 && h.opbase <= 255
    decreases |prog|
  {
    if prog == [] then []
    else
      var (r', row) := Exec(h, r, prog[0]);
      (if row.Some? then [row.value] else []) + ExecRows(h, r', prog[1..])
  }

  // ---------------------------------------------------------------- bytes

  function SpecialOp(h: Header, dline: int, advance: nat): int { dline - h.lbase + h.lrange * advance + h.opbase }

  /** The standard opcode of an instruction; zero for the extended and the special ones. */
  function OpcodeOf(i: Instr): nat {
    match i
    case Copy => 1
    case AdvancePc(_) => 2
    case AdvanceLine(_) => 3
    case SetFile(_) => 4
    case SetColumn(_) => 5
    case NegateStmt => 6
    case BasicBlock => 7
    case ConstAddPc => 8
    case FixedAdvancePc(_) => 9
    case PrologueEnd => 10
    case EpilogueBegin => 11
    case SetIsa(_) => 12
    case UnknownStandard(op) => op
    case _ => 0
  }

  /** Instructions that can be written down: standard opcodes are those below the header's base. */
  ghost predicate Writable(h: Header, i: Instr) {
    h.lrange > 0 && h.opbase <= 255 && (OpcodeOf(i) == 0 || OpcodeOf(i) < h.opbase) && OperandOk(h, i)
  }

  ghost predicate OperandOk(h: Header, i: Instr) {
    match i
    case AdvancePc(n) => Small(n)
    case SetFile(n) => Small(n)
    case SetColumn(n) => Small(n)
    case SetIsa(n) => Small(n)
    case AdvanceLine(d) => Ranged(d)
    case FixedAdvancePc(k) => k < 0x1_0000
    case SetAddress(k) => h.addrSize in {1, 2, 4, 8} && k < Bound(h.addrSize)
    case DefineFile(len, name, dir, time, size) => Small(len) && Small(dir) && Small(time) && Small(size) && 0 !in name
    case Unknown(len, op, data) => Small(len) && Num(len) == 1 + |data| && op as nat !in {1, 2, 3}
    case UnknownStandard(op) => 12 < op
    case Special(dline, advance) => h.lbase <= dline < h.lbase + h.lrange && 0 < SpecialOp(h, dline, advance) <= 255
    case _ => true
  }

  /** The size operand of set_address: the opcode and the address. */
  function AddressSize(h: Header): bv64 {
    if h.addrSize == 1 then 2 else if h.addrSize == 2 then 3 else if h.addrSize == 4 then 5 else 9
  }

  /** A name that ends with a zero byte, and three numbers. */
  function FileEntry(name: seq<Byte>, dir: bv64, time: bv64, size: bv64): seq<Byte> {
    name + ([0] + (EncodeU(dir) + (EncodeU(time) + EncodeU(size))))
  }

  function Encode(h: Header, i: Instr): (e: seq<Byte>)
    requires Writable(h, i)
    ensures |e| > 0
  {
    match i
    case Copy => [1]
    case AdvancePc(n) => [2] + EncodeU(n)
    case AdvanceLine(d) => [3] + EncodeS(d)
    case SetFile(n) => [4] + EncodeU(n)
    case SetColumn(n) => [5] + EncodeU(n)
    case NegateStmt => [6]
    case BasicBlock => [7]
    case ConstAddPc => [8]
    case FixedAdvancePc(k) => [9] + FixedBytes(k, 2, h.big)
    case PrologueEnd => [10]
    case EpilogueBegin => [11]
    case SetIsa(n) => [12] + EncodeU(n)
    case EndSequence => [0] + (EncodeU(1) + [1])
    case SetAddress(k) => [0] + (EncodeU(AddressSize(h)) + ([2] + FixedBytes(k, h.addrSize, h.big)))
    case DefineFile(len, name, dir, time, size) => [0] + (EncodeU(len) + ([3] + FileEntry(name, dir, time, size)))
    case Unknown(len, op, data) => [0] + (EncodeU(len) + ([op] + data))
    case UnknownStandard(op) => [ToByte(op)]
    case Special(dline, advance) => [ToByte(SpecialOp(h, dline, advance))]
  }

  function EncodeAll(h: Header, prog: seq<Instr>): seq<Byte>
    requires forall i :: 0 <= i < |prog| ==> Writable(h, prog[i])
  {
    if prog == [] then [] else Encode(h, prog[0]) + EncodeAll(h, prog[1..])
  }

  // ---------------------------------------------------------------- one instruction

  ghost predicate Here(h: Header, m: seq<Byte>, p: nat, i: Instr) {
    Writable(h, i) && Stands(m, p, Encode(h, i)) && p + |Encode(h, i)| < WORD
  }

  /** The claim for one instruction: a turn on its bytes does what it means. */
  ghost predicate Means(h: Header, m: seq<Byte>, p: nat, r: Regs, i: Instr)
    requires Writable(h, i)
  {
    Step(h, m, Machine(p, r)) == (Machine(p + |Encode(h, i)|, Exec(h, r, i).0), Exec(h, r, i).1)
  }

  /** A standard opcode byte. */
  lemma StandardStep(h: Header, m: seq<Byte>, s: Machine, op: nat)
    requires h.lrange > 0 && ByteAt(m, s.p) == op && 0 < op < h.opbase
    ensures Step(h, m, s) == Standard(h, m, s, op)
  {
    hide Standard, Extended;
  }

  lemma PlainMeans(h: Header, m: seq<Byte>, p: nat, r: Regs, i: Instr)
    requires i.Copy? || i.NegateStmt? || i.BasicBlock? || i.ConstAddPc? || i.PrologueEnd? || i.EpilogueBegin?
    requires Here(h, m, p, i)
    ensures Means(h, m, p, r, i)
  {
    hide U, S, Fixed, Extended, ByteAt, Stands;
    Opcode(m, p, Encode(h, i)[0], []);
    StandardStep(h, m, Machine(p, r), ByteAt(m, p));
  }

  /** A standard opcode the interpreter does not know is taken to have no operands. */
  lemma UnknownStandardMeans(h: Header, m: seq<Byte>, p: nat, r: Regs, i: Instr)
    requires i.UnknownStandard? && Here(h, m, p, i)
    ensures Means(h, m, p, r, i)
  {
    hide U, S, Fixed, Extended, ByteAt, Stands, ToByte;
    Opcode(m, p, ToByte(i.code), []);
    ByteRoundTrip(i.code);
    StandardStep(h, m, Machine(p, r), i.code);
  }

  lemma UnsignedMeans(h: Header, m: seq<Byte>, p: nat, r: Regs, i: Instr)
    requires (i.AdvancePc? || i.SetFile? || i.SetColumn? || i.SetIsa?) && Here(h, m, p, i)
    ensures Means(h, m, p, r, i)
  {
    hide U, S, Fixed, Extended, EncodeU, ByteAt, Stands, Num, Small;
    Opcode(m, p, Encode(h, i)[0], EncodeU(i.n));
    UnsignedOperand(m, p + 1, i.n);
    StandardStep(h, m, Machine(p, r), ByteAt(m, p));
  }

  lemma SignedMeans(h: Header, m: seq<Byte>, p: nat, r: Regs, i: Instr)
    requires i.AdvanceLine? && Here(h, m, p, i)
    ensures Means(h, m, p, r, i)
  {
    hide U, S, Fixed, Extended, EncodeS, Ranged, ByteAt, Stands, Num, Small;
    Opcode(m, p, 3, EncodeS(i.d));
    SignedOperand(m, p + 1, i.d);
    StandardStep(h, m, Machine(p, r), ByteAt(m, p));
  }

  lemma FixedMeans(h: Header, m: seq<Byte>, p: nat, r: Regs, i: Instr)
    requires i.FixedAdvancePc? && Here(h, m, p, i)
    ensures Means(h, m, p, r, i)
  {
    hide U, S, Fixed, Extended, FixedBytes, ByteAt, Stands;
    Opcode(m, p, 9, FixedBytes(i.k, 2, h.big));
    TwoBytes();
    FixedOperand(m, p + 1, i.k, 2, h.big);
    StandardStep(h, m, Machine(p, r), ByteAt(m, p));
  }

  lemma SpecialMeans(h: Header, m: seq<Byte>, p: nat, r: Regs, i: Instr)
    requires i.Special? && Here(h, m, p, i)
    ensures Means(h, m, p, r, i)
  {
    hide Standard, Extended, LineDelta, AddressDelta, ByteAt, Stands, ToByte;
    var op := SpecialOp(h, i.dline, i.advance);
    SpecialOpcode(h, i.dline, i.advance);
    Opcode(m, p, ToByte(op), []);
    ByteRoundTrip(op);
  }

  /** The zero byte, the size and the opcode of an extended instruction. */
  lemma ExtendedHead(m: seq<Byte>, p: nat, size: bv64, rest: seq<Byte>)
    requires Stands(m, p, [0] + (EncodeU(size) + rest)) && Small(size) && |rest| > 0
    requires p + 1 + |EncodeU(size)| + |rest| < WORD
    ensures var q := p + 1 + |EncodeU(size)|;
            ByteAt(m, p) == 0 && U(m, p + 1) == (Num(size), q) && ByteAt(m, q) == rest[0] as nat && Stands(m, q, rest)
  {
    hide U, EncodeU, Stands, Num, ByteAt, Small;
    Opcode(m, p, 0, EncodeU(size) + rest);
    StandsTail(m, p + 1, EncodeU(size), rest);
    assert rest == [rest[0]] + rest[1..];
    Opcode(m, p + 1 + |EncodeU(size)|, rest[0], rest[1..]);
    UnsignedOperand(m, p + 1, size);
  }

  lemma EndMeans(h: Header, m: seq<Byte>, p: nat, r: Regs, i: Instr)
    requires i.EndSequence? && Here(h, m, p, i)
    ensures Means(h, m, p, r, i)
  {
    hide U, Fixed, Standard, EncodeU, Stands, ByteAt;
    ExtendedHead(m, p, 1, [1]);
  }

  lemma AddressMeans(h: Header, m: seq<Byte>, p: nat, r: Regs, i: Instr)
    requires i.SetAddress? && Here(h, m, p, i)
    ensures Means(h, m, p, r, i)
  {
    hide U, Fixed, Standard, EncodeU, FixedBytes, Stands, ByteAt, Bound, AddressSize, Small;
    SmallSize(h);
    var q := p + 1 + |EncodeU(AddressSize(h))|;
    ExtendedHead(m, p, AddressSize(h), [2] + FixedBytes(i.k, h.addrSize, h.big));
    StandsTail(m, q, [2], FixedBytes(i.k, h.addrSize, h.big));
    FixedOperand(m, q + 1, i.k, h.addrSize, h.big);
  }

  lemma SmallSize(h: Header)
    ensures Small(AddressSize(h))
  {
  }

  lemma {:induction false} StringSkipped(m: seq<Byte>, p: nat, name: seq<Byte>, rest: seq<Byte>)
    requires Stands(m, p, name + ([0] + rest)) && 0 !in name
    ensures SkipString(m, p) == p + |name| + 1 && Stands(m, p + |name| + 1, rest)
    decreases |name|
  {
    hide Stands;
    if name == [] {
      assert name + ([0] + rest) == [0] + rest;
      StandsAt(m, p, [0] + rest, 0);
      StandsTail(m, p, [0], rest);
    } else {
      assert name + ([0] + rest) == [name[0]] + (name[1..] + ([0] + rest));
      StandsAt(m, p, name + ([0] + rest), 0);
      StandsTail(m, p, [name[0]], name[1..] + ([0] + rest));
      StringSkipped(m, p + 1, name[1..], rest);
    }
  }

  lemma ThreeSkipped(m: seq<Byte>, p: nat, a: bv64, b: bv64, c: bv64)
    requires Stands(m, p, EncodeU(a) + (EncodeU(b) + EncodeU(c))) && Small(a) && Small(b) && Small(c)
    requires p + |EncodeU(a)| + |EncodeU(b)| + |EncodeU(c)| < WORD
    ensures U(m, U(m, U(m, p).1).1).1 == p + |EncodeU(a)| + |EncodeU(b)| + |EncodeU(c)|
  {
    hide U, EncodeU, Stands, Small, Num;
    StandsTail(m, p, EncodeU(a), EncodeU(b) + EncodeU(c));
    StandsTail(m, p + |EncodeU(a)|, EncodeU(b), EncodeU(c));
    UnsignedOperand(m, p, a);
    UnsignedOperand(m, p + |EncodeU(a)|, b);
    UnsignedOperand(m, p + |EncodeU(a)| + |EncodeU(b)|, c);
  }

  lemma FileSkipped(m: seq<Byte>, p: nat, name: seq<Byte>, dir: bv64, time: bv64, size: bv64)
    requires Stands(m, p, FileEntry(name, dir, time, size)) && p + |FileEntry(name, dir, time, size)| < WORD
    requires 0 !in name && Small(dir) && Small(time) && Small(size)
    ensures SkipFile(m, p) == p + |FileEntry(name, dir, time, size)|
  {
    hide U, EncodeU, Stands, SkipString, Small;
    StringSkipped(m, p, name, EncodeU(dir) + (EncodeU(time) + EncodeU(size)));
    ThreeSkipped(m, p + |name| + 1, dir, time, size);
  }

  /** A file entry is stepped over. */
  lemma FileMeans(h: Header, m: seq<Byte>, p: nat, r: Regs, i: Instr)
    requires i.DefineFile? && Here(h, m, p, i)
    ensures Means(h, m, p, r, i)
  {
    hide U, Fixed, Standard, EncodeU, Stands, ByteAt, SkipFile, Small, Num, FileEntry;
    var entry := FileEntry(i.name, i.dir, i.time, i.size);
    ExtendedHead(m, p, i.len, [3] + entry);
    var q := p + 1 + |EncodeU(i.len)|;
    StandsTail(m, q, [3], entry);
    FileSkipped(m, q + 1, i.name, i.dir, i.time, i.size);
  }

  /** So is an extended instruction of an unknown opcode, by its length. */
  lemma UnknownMeans(h: Header, m: seq<Byte>, p: nat, r: Regs, i: Instr)
    requires i.Unknown? && Here(h, m, p, i)
    ensures Means(h, m, p, r, i)
  {
    hide U, Fixed, Standard, EncodeU, Stands, ByteAt, SkipFile, Small, Num;
    ExtendedHead(m, p, i.len, [i.op] + i.data);
  }

  /** One turn on the bytes of an instruction does what the instruction means. */
  lemma StepMeans(h: Header, m: seq<Byte>, p: nat, r: Regs, i: Instr)
    requires Here(h, m, p, i)
    ensures Means(h, m, p, r, i)
  {
    hide Here, Means;
    match i
    case AdvanceLine(_) => SignedMeans(h, m, p, r, i);
    case FixedAdvancePc(_) => FixedMeans(h, m, p, r, i);
    case Special(_, _) => SpecialMeans(h, m, p, r, i);
    case EndSequence => EndMeans(h, m, p, r, i);
    case SetAddress(_) => AddressMeans(h, m, p, r, i);
    case DefineFile(_, _, _, _, _) => FileMeans(h, m, p, r, i);
    case Unknown(_, _, _) => UnknownMeans(h, m, p, r, i);
    case UnknownStandard(_) => UnknownStandardMeans(h, m, p, r, i);
    case AdvancePc(_) => UnsignedMeans(h, m, p, r, i);
    case SetFile(_) => UnsignedMeans(h, m, p, r, i);
    case SetColumn(_) => UnsignedMeans(h, m, p, r, i);
    case SetIsa(_) => UnsignedMeans(h, m, p, r, i);
    case _ => PlainMeans(h, m, p, r, i);
  }

  // ---------------------------------------------------------------- whole programs

  /** The table built from the bytes of a program is the table the program means, and one turn for
      each instruction is enough to build it. */
  lemma {:induction false} RowsRun(h: Header, m: seq<Byte>, p: nat, r: Regs, prog: seq<Instr>, pc: nat)
    requires h.lrange > 0 && h.opbase <= 255 && forall i :: 0 <= i < |prog| ==> Writable(h, prog[i])
    requires Stands(m, p, EncodeAll(h, prog)) && p + |EncodeAll(h, prog)| < WORD
    ensures Rows(h, m, p + |EncodeAll(h, prog)|, Machine(p, r), |prog|) == ExecRows(h, r, prog)
    ensures Ends(h, m, p + |EncodeAll(h, prog)|, pc, Machine(p, r), |prog|)
    decreases |prog|
  {
    hide Step, Encode, Exec, Writable;
    if prog != [] {
      var first, rest := Encode(h, prog[0]), EncodeAll(h, prog[1..]);
      StandsTail(m, p, first, rest);
      StepMeans(h, m, p, r, prog[0]);
      RowsRun(h, m, p + |first|, Exec(h, r, prog[0]).0, prog[1..], pc);
    }
  }

  /** So the interpreter comes back from the bytes of every program, and leaves what a search of the
      rows the program means finds. */
  method Lookup(h: Header, m: seq<Byte>, p: nat, pe: nat, ghost prog: seq<Instr>, pc: nat, init: LineInfo) returns (li: LineInfo)
    requires HeaderOk(h) && forall i :: 0 <= i < |prog| ==> Writable(h, prog[i])
    requires Stands(m, p, EncodeAll(h, prog)) && pe == p + |EncodeAll(h, prog)| < WORD
    ensures li == Found(init, ExecRows(h, InitialRegs(h), prog), pc)
  {
    hide Step, Encode, Exec, Writable, Rows, Found, EncodeAll, ExecRows, Ends;
    RowsRun(h, m, p, InitialRegs(h), prog, pc);
    li := RunProgram(h, m, p, pe, pc, init);
  }
}
