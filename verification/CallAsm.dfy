/** Call frame programs as lists of instructions (section 6.4.2 of DWARF Version 4): their bytes,
    and what they mean without any bytes. */
module CallAsm {
  import opened Wrappers
  import opened Leb128
  import opened DwarfRead
  import opened CallFrame

  datatype Cfi =
    | Nop
    | AdvanceLoc(d: nat)
    | AdvanceBy(size: nat, d: nat)
    | SetLoc(a: nat)
    | Offset(r: nat, off: bv64)
    | Restore(r: nat)
    | OffsetExtended(reg: bv64, off: bv64)
    | RestoreExtended(reg: bv64)
    | Undefined(reg: bv64)
    | SameValue(reg: bv64)
    | Register(reg: bv64, off: bv64)
    | Remember
    | RestoreState
    | DefCfa(reg: bv64, off: bv64)
    | DefCfaRegister(reg: bv64)
    | DefCfaOffset(off: bv64)
    | DefCfaExpression(len: bv64, block: seq<Byte>)
    | Expression(reg: bv64, len: bv64, block: seq<Byte>)
    | OffsetExtendedSf(reg: bv64, off: bv64)
    | DefCfaSf(reg: bv64, off: bv64)
    | DefCfaOffsetSf(off: bv64)
    | ValOffset(reg: bv64, off: bv64)
    | ValOffsetSf(reg: bv64, off: bv64)
    | ValExpression(reg: bv64, len: bv64, block: seq<Byte>)

  // ---------------------------------------------------------------- meaning

  /** A new location, a rule for a register or for the CFA, another table, or nothing. */
  datatype Effect = Move(pc: nat) | Give(reg: nat, rule: Rule, newRow: bool) | Define(rule: Rule) | Load | Nothing

  /** What an instruction means for the table t at location pc, with init the initial rules and, for
      the instructions that hold an expression, at the place of its bytes. */
  function Meaning(f: Factors, pc: nat, t: Table, init: Table, i: Cfi, at: nat): Effect {
    match i
    case Nop => Nothing
    case Remember => Nothing
    case AdvanceLoc(d) => Move((pc + Scaled(d, f.caf)) % WORD)
    case AdvanceBy(_, d) => Move((pc + Scaled(d, f.caf)) % WORD)
    case SetLoc(a) => Move(a)
    case Offset(r, off) => Give(r, FromCfa(f, t, r, OFFSET, off), true)
    case OffsetExtended(reg, off) => Give(Num(reg), FromCfa(f, t, Num(reg), OFFSET, off), true)
    case OffsetExtendedSf(reg, off) => Give(Num(reg), FromCfa(f, t, Num(reg), OFFSET, off), true)
    case ValOffset(reg, off) => Give(Num(reg), FromCfa(f, t, Num(reg), VAL_OFFSET, off), true)
    case ValOffsetSf(reg, off) => Give(Num(reg), FromCfa(f, t, Num(reg), VAL_OFFSET, off), true)
    case Restore(r) => Give(r, Was(init, r), true)
    case RestoreExtended(reg) => Give(Num(reg), Was(init, Num(reg)), true)
    case Undefined(reg) => Give(Num(reg), Was(t, Num(reg)).(offsetRelevant := false, regnum := UNDEFINED_VALUE), true)
    case SameValue(reg) => Give(Num(reg), Was(t, Num(reg)).(offsetRelevant := false, regnum := SAME_VALUE), false)
    case Register(reg, other) =>
      Give(Num(reg), Was(t, Num(reg)).(offsetRelevant := false, regnum := Num(other) % REGNUMS), true)
    case Expression(reg, _, block) => Give(Num(reg), Rule(false, EXPRESSION, Was(t, Num(reg)).regnum, |block|, at), true)
    case ValExpression(reg, _, block) =>
      Give(Num(reg), Rule(false, VAL_EXPRESSION, Was(t, Num(reg)).regnum, |block|, at), true)
    case RestoreState => Load
    case DefCfa(reg, off) => Define(Rule(true, OFFSET, Num(reg) % REGNUMS, Num(off), t.cfa.block))
    case DefCfaSf(reg, off) => Define(Rule(true, OFFSET, Num(reg) % REGNUMS, Scaled(Num(off), f.daf), t.cfa.block))
    case DefCfaRegister(reg) => Define(t.cfa.(regnum := Num(reg) % REGNUMS))
    case DefCfaOffset(off) => Define(Rule(true, OFFSET, t.cfa.regnum, Num(off), t.cfa.block))
    case DefCfaOffsetSf(off) => Define(Rule(true, OFFSET, t.cfa.regnum, Scaled(Num(off), f.daf), t.cfa.block))
    case DefCfaExpression(_, block) => Define(Rule(false, EXPRESSION, t.cfa.regnum, |block|, at))
  }

  /** The rule there was for a register. */
  function Was(t: Table, reg: nat): Rule { if reg < |t.rules| then t.rules[reg] else t.cfa }

  /** At a factored offset from the CFA. */
  function FromCfa(f: Factors, t: Table, reg: nat, valueType: nat, off: bv64): Rule {
    Rule(true, valueType, CFA_VALUE, Scaled(Num(off), f.daf), Was(t, reg).block)
  }

  /** An effect on the machine, whose pointer then stands at p. */
  function Perform(c: Core, e: Effect, saved: Option<Table>, p: nat): Outcome {
    match e
    case Nothing => Next(c.(p := p))
    case Move(pc) => Moved(c.(p := p, pc := pc))
    case Define(rule) => Next(Core(p, c.pc, c.pc, c.table.(cfa := rule)))
    case Load => if saved == None then Panic else Next(Core(p, c.pc, c.pc, saved.value))
    case Give(reg, rule, newRow) =>
      if reg >= |c.table.rules| then Fail(RegNumTooHigh)
      else Next(Core(p, c.pc, if newRow then c.pc else c.rowPc, c.table.(rules := c.table.rules[reg := rule])))
  }

  // ---------------------------------------------------------------- bytes

  ghost predicate Writable(f: Factors, i: Cfi) {
    match i
    case AdvanceLoc(d) => d < 64
    case AdvanceBy(size, d) => size in {1, 2, 4} && d < Bound(size)
    case SetLoc(a) => f.pointerSize in {1, 2, 4, 8} && a < Bound(f.pointerSize) && a < WORD
    case Offset(r, off) => r < 64 && Small(off)
    case Restore(r) => r < 64
    case OffsetExtended(reg, off) => Small(reg) && Small(off)
    case Register(reg, off) => Small(reg) && Small(off)
    case ValOffset(reg, off) => Small(reg) && Small(off)
    case DefCfa(reg, off) => Small(reg) && Small(off)
    case OffsetExtendedSf(reg, off) => Small(reg) && Ranged(off)
    case ValOffsetSf(reg, off) => Small(reg) && Ranged(off)
    case DefCfaSf(reg, off) => Small(reg) && Ranged(off)
    case RestoreExtended(reg) => Small(reg)
    case Undefined(reg) => Small(reg)
    case SameValue(reg) => Small(reg)
    case DefCfaRegister(reg) => Small(reg)
    case DefCfaOffset(off) => Small(off)
    case DefCfaOffsetSf(off) => Ranged(off)
    case DefCfaExpression(len, block) => Small(len) && Num(len) == |block|
    case Expression(reg, len, block) => Small(reg) && Small(len) && Num(len) == |block|
    case ValExpression(reg, len, block) => Small(reg) && Small(len) && Num(len) == |block|
    case _ => true
  }

  function Encode(f: Factors, i: Cfi): (e: seq<Byte>)
    requires Writable(f, i)
    ensures |e| > 0
  {
    match i
    case Nop => [0x00]
    case AdvanceLoc(d) => [ToByte(64 + d)]
    case AdvanceBy(size, d) => [if size == 1 then 0x02 else if size == 2 then 0x03 else 0x04] + FixedBytes(d, size, f.big)
    case SetLoc(a) => [0x01] + FixedBytes(a, f.pointerSize, f.big)
    case Offset(r, off) => [ToByte(128 + r)] + EncodeU(off)
    case Restore(r) => [ToByte(192 + r)]
    case OffsetExtended(reg, off) => [0x05] + (EncodeU(reg) + EncodeU(off))
    case RestoreExtended(reg) => [0x06] + EncodeU(reg)
    case Undefined(reg) => [0x07] + EncodeU(reg)
    case SameValue(reg) => [0x08] + EncodeU(reg)
    case Register(reg, off) => [0x09] + (EncodeU(reg) + EncodeU(off))
    case Remember => [0x0a]
    case RestoreState => [0x0b]
    case DefCfa(reg, off) => [0x0c] + (EncodeU(reg) + EncodeU(off))
    case DefCfaRegister(reg) => [0x0d] + EncodeU(reg)
    case DefCfaOffset(off) => [0x0e] + EncodeU(off)
    case DefCfaExpression(len, block) => [0x0f] + (EncodeU(len) + block)
    case Expression(reg, len, block) => [0x10] + (EncodeU(reg) + (EncodeU(len) + block))
    case OffsetExtendedSf(reg, off) => [0x11] + (EncodeU(reg) + EncodeS(off))
    case DefCfaSf(reg, off) => [0x12] + (EncodeU(reg) + EncodeS(off))
    case DefCfaOffsetSf(off) => [0x13] + EncodeS(off)
    case ValOffset(reg, off) => [0x14] + (EncodeU(reg) + EncodeU(off))
    case ValOffsetSf(reg, off) => [0x15] + (EncodeU(reg) + EncodeS(off))
    case ValExpression(reg, len, block) => [0x16] + (EncodeU(reg) + (EncodeU(len) + block))
  }

  /** Where the bytes of an instruction's expression stand. */
  function BlockPlace(i: Cfi, p: nat): nat {
    match i
    case DefCfaExpression(len, _) => p + 1 + |EncodeU(len)|
    case Expression(reg, len, _) => p + 1 + |EncodeU(reg)| + |EncodeU(len)|
    case ValExpression(reg, len, _) => p + 1 + |EncodeU(reg)| + |EncodeU(len)|
    case _ => p
  }

  ghost predicate Here(f: Factors, m: seq<Byte>, p: nat, i: Cfi) {
    Writable(f, i) && Stands(m, p, Encode(f, i)) && p + |Encode(f, i)| < WORD
  }

  /** The claim for one instruction. */
  ghost predicate Means(f: Factors, m: seq<Byte>, c: Core, init: Table, saved: Option<Table>, i: Cfi)
    requires Writable(f, i)
  {
    Apply(f, m, c, init, saved) ==
      Perform(c, Meaning(f, c.pc, c.table, init, i, BlockPlace(i, c.p)), saved, c.p + |Encode(f, i)|)
  }

  // ---------------------------------------------------------------- one instruction

  lemma NopMeans(f: Factors, m: seq<Byte>, c: Core, init: Table, saved: Option<Table>, i: Cfi)
    requires Here(f, m, c.p, i) && i.Nop?
    ensures Means(f, m, c, init, saved, i)
  {
    hide U, S, Fixed, ByteAt, Scaled, ToByte, Stands, Num, Small;
    Opcode(m, c.p, 0x00, []);
  }

  lemma RestoreStateMeans(f: Factors, m: seq<Byte>, c: Core, init: Table, saved: Option<Table>, i: Cfi)
    requires Here(f, m, c.p, i) && i.RestoreState?
    ensures Means(f, m, c, init, saved, i)
  {
    hide U, S, Fixed, ByteAt, Scaled, ToByte, Stands, RegisterInst, CfaInst, LocationInst, Num, Small;
    Opcode(m, c.p, 0x0b, []);
  }

  lemma AdvanceLocMeans(f: Factors, m: seq<Byte>, c: Core, init: Table, saved: Option<Table>, i: Cfi)
    requires Here(f, m, c.p, i) && i.AdvanceLoc?
    ensures Means(f, m, c, init, saved, i)
  {
    hide U, S, Fixed, ByteAt, Scaled, ToByte, Stands, RegisterInst, CfaInst, LocationInst, Num, Small;
    Opcode(m, c.p, ToByte(64 + i.d), []);
    ByteRoundTrip(64 + i.d);
  }

  lemma RestoreLowMeans(f: Factors, m: seq<Byte>, c: Core, init: Table, saved: Option<Table>, i: Cfi)
    requires Here(f, m, c.p, i) && i.Restore?
    ensures Means(f, m, c, init, saved, i)
  {
    hide U, S, Fixed, ByteAt, Scaled, ToByte, Stands, RegisterInst, CfaInst, LocationInst, Num, Small;
    Opcode(m, c.p, ToByte(192 + i.r), []);
    ByteRoundTrip(192 + i.r);
  }

  lemma OffsetPart(f: Factors, m: seq<Byte>, c: Core, init: Table, saved: Option<Table>, r: nat)
    requires ByteAt(m, c.p) == 128 + r && r < 64
    ensures Apply(f, m, c, init, saved) ==
            SetOffset(c, U(m, (c.p + 1) % WORD).1, r, OFFSET, Scaled(U(m, (c.p + 1) % WORD).0, f.daf))
  {
    hide U, S, Fixed, ByteAt, RegisterInst, CfaInst, LocationInst, SetOffset, Scaled;
  }

  lemma WasIs(t: Table, reg: nat)
    ensures Was(t, reg) == OldRule(t, reg)
  {
  }

  lemma OffsetMeans(f: Factors, m: seq<Byte>, c: Core, init: Table, saved: Option<Table>, r: nat, off: bv64)
    requires Here(f, m, c.p, Offset(r, off))
    ensures Means(f, m, c, init, saved, Offset(r, off))
  {
    hide U, S, Fixed, ByteAt, Scaled, ToByte, EncodeU, Stands, Num, Apply, Small, SetOffset, Perform, FromCfa;
    Opcode(m, c.p, ToByte(128 + r), EncodeU(off));
    ByteRoundTrip(128 + r);
    UnsignedOperand(m, c.p + 1, off);
    OffsetPart(f, m, c, init, saved, r);
    OffsetIs(f, c, r, off, c.p + 1 + |EncodeU(off)|, saved);
  }

  lemma OffsetIs(f: Factors, c: Core, r: nat, off: bv64, q: nat, saved: Option<Table>)
    ensures SetOffset(c, q, r, OFFSET, Scaled(Num(off), f.daf)) ==
            Perform(c, Give(r, FromCfa(f, c.table, r, OFFSET, off), true), saved, q)
  {
    hide Scaled, Num, OldRule, Was;
    WasIs(c.table, r);
  }

  /** Which part of the interpreter an opcode belongs to. */
  lemma RegisterPart(f: Factors, m: seq<Byte>, c: Core, init: Table, saved: Option<Table>, op: nat)
    requires ByteAt(m, c.p) == op && IsRegister(op)
    ensures Apply(f, m, c, init, saved) == RegisterInst(f, m, c, U(m, (c.p + 1) % WORD).0, U(m, (c.p + 1) % WORD).1, op)
  {
    hide U, S, Fixed, ByteAt, RegisterInst, Num, Small;
  }

  lemma LocationPart(f: Factors, m: seq<Byte>, c: Core, init: Table, saved: Option<Table>, op: nat)
    requires ByteAt(m, c.p) == op && 1 <= op <= 4
    ensures Apply(f, m, c, init, saved) == LocationInst(f, m, c, (c.p + 1) % WORD, op)
  {
    hide U, S, Fixed, ByteAt, LocationInst, Num, Small;
  }

  lemma RestorePart(f: Factors, m: seq<Byte>, c: Core, init: Table, saved: Option<Table>)
    requires ByteAt(m, c.p) == 0x06
    ensures Apply(f, m, c, init, saved) ==
            SetRule(c, U(m, (c.p + 1) % WORD).1, U(m, (c.p + 1) % WORD).0, OldRule(init, U(m, (c.p + 1) % WORD).0))
  {
    hide U, S, Fixed, ByteAt, RegisterInst, CfaInst, LocationInst, SetRule, OldRule, Num, Small;
  }

  lemma SamePart(f: Factors, m: seq<Byte>, c: Core, init: Table, saved: Option<Table>)
    requires ByteAt(m, c.p) == 0x08
    ensures Apply(f, m, c, init, saved) == SameInst(c, U(m, (c.p + 1) % WORD).0, U(m, (c.p + 1) % WORD).1)
  {
    hide U, S, Fixed, ByteAt, RegisterInst, CfaInst, LocationInst, SetRule, OldRule, SameInst, Num, Small;
  }

  lemma SameIs(c: Core, reg: nat, q: nat, saved: Option<Table>)
    ensures SameInst(c, reg, q) ==
            Perform(c, Give(reg, Was(c.table, reg).(offsetRelevant := false, regnum := SAME_VALUE), false), saved, q)
  {
  }

  lemma CfaPart(f: Factors, m: seq<Byte>, c: Core, init: Table, saved: Option<Table>, op: nat)
    requires ByteAt(m, c.p) == op && IsCfa(op)
    ensures Apply(f, m, c, init, saved) == CfaInst(f, m, c, (c.p + 1) % WORD, op)
  {
    hide U, S, Fixed, ByteAt, CfaInst, Num, Small;
  }

  lemma RestoreMeans(f: Factors, m: seq<Byte>, c: Core, init: Table, saved: Option<Table>, reg: bv64)
    requires Here(f, m, c.p, RestoreExtended(reg))
    ensures Means(f, m, c, init, saved, RestoreExtended(reg))
  {
    hide U, S, Fixed, ByteAt, Scaled, EncodeU, Stands, Apply, SetRule, Perform, OldRule, Was, Num, Small;
    Opcode(m, c.p, 0x06, EncodeU(reg));
    UnsignedOperand(m, c.p + 1, reg);
    RestorePart(f, m, c, init, saved);
    RestoreIs(c, Num(reg), init, c.p + 1 + |EncodeU(reg)|, saved);
  }

  lemma RestoreIs(c: Core, reg: nat, init: Table, q: nat, saved: Option<Table>)
    ensures SetRule(c, q, reg, OldRule(init, reg)) == Perform(c, Give(reg, Was(init, reg), true), saved, q)
  {
  }

  lemma SameMeans(f: Factors, m: seq<Byte>, c: Core, init: Table, saved: Option<Table>, reg: bv64)
    requires Here(f, m, c.p, SameValue(reg))
    ensures Means(f, m, c, init, saved, SameValue(reg))
  {
    hide U, S, Fixed, ByteAt, Scaled, EncodeU, Stands, Apply, SameInst, Perform, OldRule, Was, Num, Small;
    Opcode(m, c.p, 0x08, EncodeU(reg));
    UnsignedOperand(m, c.p + 1, reg);
    SamePart(f, m, c, init, saved);
    SameIs(c, Num(reg), c.p + 1 + |EncodeU(reg)|, saved);
  }

  lemma UndefinedMeans(f: Factors, m: seq<Byte>, c: Core, init: Table, saved: Option<Table>, reg: bv64)
    requires Here(f, m, c.p, Undefined(reg))
    ensures Means(f, m, c, init, saved, Undefined(reg))
  {
    hide U, S, Fixed, ByteAt, Scaled, EncodeU, Stands, Apply, Num, Small;
    Opcode(m, c.p, 0x07, EncodeU(reg));
    UnsignedOperand(m, c.p + 1, reg);
    RegisterPart(f, m, c, init, saved, 0x07);
  }

  lemma CfaRegisterMeans(f: Factors, m: seq<Byte>, c: Core, init: Table, saved: Option<Table>, reg: bv64)
    requires Here(f, m, c.p, DefCfaRegister(reg))
    ensures Means(f, m, c, init, saved, DefCfaRegister(reg))
  {
    hide U, S, Fixed, ByteAt, Scaled, EncodeU, Stands, Apply, Num, Small;
    Opcode(m, c.p, 0x0d, EncodeU(reg));
    UnsignedOperand(m, c.p + 1, reg);
    CfaPart(f, m, c, init, saved, 0x0d);
  }

  /** A register number and a second unsigned operand, perhaps followed by a block. */
  lemma TwoUnsigned(m: seq<Byte>, p: nat, b: Byte, reg: bv64, off: bv64, block: seq<Byte>)
    requires Stands(m, p, [b] + (EncodeU(reg) + (EncodeU(off) + block))) && Small(reg) && Small(off)
    requires p + 1 + |EncodeU(reg)| + |EncodeU(off)| < WORD
    ensures ByteAt(m, p) == b as nat && U(m, p + 1) == (Num(reg), p + 1 + |EncodeU(reg)|)
    ensures U(m, p + 1 + |EncodeU(reg)|) == (Num(off), p + 1 + |EncodeU(reg)| + |EncodeU(off)|)
  {
    hide U, ByteAt, EncodeU, Stands, Num, Small;
    Opcode(m, p, b, EncodeU(reg) + (EncodeU(off) + block));
    StandsTail(m, p + 1, EncodeU(reg), EncodeU(off) + block);
    StandsTail(m, p + 1 + |EncodeU(reg)|, EncodeU(off), block);
    UnsignedOperand(m, p + 1, reg);
    UnsignedOperand(m, p + 1 + |EncodeU(reg)|, off);
  }

  lemma DefCfaMeans(f: Factors, m: seq<Byte>, c: Core, init: Table, saved: Option<Table>, i: Cfi)
    requires Here(f, m, c.p, i) && i.DefCfa?
    ensures Means(f, m, c, init, saved, i)
  {
    hide U, S, Fixed, ByteAt, Scaled, EncodeU, Stands, Small, Apply, Num;
    assert EncodeU(i.off) + [] == EncodeU(i.off);
    TwoUnsigned(m, c.p, 0x0c, i.reg, i.off, []);
    CfaPart(f, m, c, init, saved, 0x0c);
  }

  /** A register number and a signed operand. */
  lemma UnsignedSigned(m: seq<Byte>, p: nat, b: Byte, reg: bv64, off: bv64)
    requires Stands(m, p, [b] + (EncodeU(reg) + EncodeS(off))) && Small(reg) && Ranged(off)
    requires p + 1 + |EncodeU(reg)| + |EncodeS(off)| < WORD
    ensures ByteAt(m, p) == b as nat && U(m, p + 1) == (Num(reg), p + 1 + |EncodeU(reg)|)
    ensures S(m, p + 1 + |EncodeU(reg)|) == (Num(off), p + 1 + |EncodeU(reg)| + |EncodeS(off)|)
  {
    hide U, S, ByteAt, EncodeU, EncodeS, Stands, Ranged, Num, Small;
    Opcode(m, p, b, EncodeU(reg) + EncodeS(off));
    StandsTail(m, p + 1, EncodeU(reg), EncodeS(off));
    UnsignedOperand(m, p + 1, reg);
    SignedOperand(m, p + 1 + |EncodeU(reg)|, off);
  }

  lemma DefCfaSfMeans(f: Factors, m: seq<Byte>, c: Core, init: Table, saved: Option<Table>, i: Cfi)
    requires Here(f, m, c.p, i) && i.DefCfaSf?
    ensures Means(f, m, c, init, saved, i)
  {
    hide U, S, Fixed, ByteAt, Scaled, EncodeU, EncodeS, Stands, Ranged, Small, Apply, Num;
    UnsignedSigned(m, c.p, 0x12, i.reg, i.off);
    CfaPart(f, m, c, init, saved, 0x12);
  }

  lemma CfaBlockMeans(f: Factors, m: seq<Byte>, c: Core, init: Table, saved: Option<Table>, i: Cfi)
    requires Here(f, m, c.p, i) && i.DefCfaExpression?
    ensures Means(f, m, c, init, saved, i)
  {
    hide U, S, Fixed, ByteAt, Scaled, EncodeU, Stands, Apply, Num, Small;
    Opcode(m, c.p, 0x0f, EncodeU(i.len) + i.block);
    StandsTail(m, c.p + 1, EncodeU(i.len), i.block);
    UnsignedOperand(m, c.p + 1, i.len);
    CfaPart(f, m, c, init, saved, 0x0f);
  }

  lemma OffsetExtendedMeans(f: Factors, m: seq<Byte>, c: Core, init: Table, saved: Option<Table>, i: Cfi)
    requires Here(f, m, c.p, i) && i.OffsetExtended?
    ensures Means(f, m, c, init, saved, i)
  {
    hide U, S, Fixed, ByteAt, Scaled, EncodeU, EncodeS, Stands, Ranged, Small, Apply, Num;
    assert EncodeU(i.off) + [] == EncodeU(i.off);
    TwoUnsigned(m, c.p, 0x05, i.reg, i.off, []);
    RegisterPart(f, m, c, init, saved, 0x05);
  }

  lemma RegisterMeans(f: Factors, m: seq<Byte>, c: Core, init: Table, saved: Option<Table>, i: Cfi)
    requires Here(f, m, c.p, i) && i.Register?
    ensures Means(f, m, c, init, saved, i)
  {
    hide U, S, Fixed, ByteAt, Scaled, EncodeU, EncodeS, Stands, Ranged, Small, Apply, Num;
    assert EncodeU(i.off) + [] == EncodeU(i.off);
    TwoUnsigned(m, c.p, 0x09, i.reg, i.off, []);
    RegisterPart(f, m, c, init, saved, 0x09);
  }

  lemma ValOffsetMeans(f: Factors, m: seq<Byte>, c: Core, init: Table, saved: Option<Table>, i: Cfi)
    requires Here(f, m, c.p, i) && i.ValOffset?
    ensures Means(f, m, c, init, saved, i)
  {
    hide U, S, Fixed, ByteAt, Scaled, EncodeU, EncodeS, Stands, Ranged, Small, Apply, Num;
    assert EncodeU(i.off) + [] == EncodeU(i.off);
    TwoUnsigned(m, c.p, 0x14, i.reg, i.off, []);
    RegisterPart(f, m, c, init, saved, 0x14);
  }

  lemma OffsetExtendedSfMeans(f: Factors, m: seq<Byte>, c: Core, init: Table, saved: Option<Table>, i: Cfi)
    requires Here(f, m, c.p, i) && i.OffsetExtendedSf?
    ensures Means(f, m, c, init, saved, i)
  {
    hide U, S, Fixed, ByteAt, Scaled, EncodeU, EncodeS, Stands, Ranged, Small, Apply, Num;
    UnsignedSigned(m, c.p, 0x11, i.reg, i.off);
    RegisterPart(f, m, c, init, saved, 0x11);
  }

  lemma ValOffsetSfMeans(f: Factors, m: seq<Byte>, c: Core, init: Table, saved: Option<Table>, i: Cfi)
    requires Here(f, m, c.p, i) && i.ValOffsetSf?
    ensures Means(f, m, c, init, saved, i)
  {
    hide U, S, Fixed, ByteAt, Scaled, EncodeU, EncodeS, Stands, Ranged, Small, Apply, Num;
    UnsignedSigned(m, c.p, 0x15, i.reg, i.off);
    RegisterPart(f, m, c, init, saved, 0x15);
  }

  /** The rule that holds a block. */
  lemma BlockRule(m: seq<Byte>, c: Core, q: nat, reg: nat, len: bv64, block: seq<Byte>, valueType: nat)
    requires U(m, q) == (Num(len), q + |EncodeU(len)|) && Num(len) == |block| && q + |EncodeU(len)| + |block| < WORD
    ensures SetBlock(m, c, q, reg, valueType) ==
            SetRule(c, q + |EncodeU(len)| + |block|, reg, Rule(false, valueType, OldRule(c.table, reg).regnum, |block|, q + |EncodeU(len)|))
  {
    hide U, EncodeU, SetRule, OldRule, Num, Small;
  }

  lemma ExpressionMeans(f: Factors, m: seq<Byte>, c: Core, init: Table, saved: Option<Table>, i: Cfi)
    requires Here(f, m, c.p, i) && i.Expression?
    ensures Means(f, m, c, init, saved, i)
  {
    hide U, S, Fixed, ByteAt, Scaled, EncodeU, EncodeS, Stands, Ranged, Small, Apply, SetBlock, Num;
    TwoUnsigned(m, c.p, 0x10, i.reg, i.len, i.block);
    RegisterPart(f, m, c, init, saved, 0x10);
    BlockRule(m, c, c.p + 1 + |EncodeU(i.reg)|, Num(i.reg), i.len, i.block, EXPRESSION);
  }

  lemma ValExpressionMeans(f: Factors, m: seq<Byte>, c: Core, init: Table, saved: Option<Table>, i: Cfi)
    requires Here(f, m, c.p, i) && i.ValExpression?
    ensures Means(f, m, c, init, saved, i)
  {
    hide U, S, Fixed, ByteAt, Scaled, EncodeU, EncodeS, Stands, Ranged, Small, Apply, SetBlock, Num;
    TwoUnsigned(m, c.p, 0x16, i.reg, i.len, i.block);
    RegisterPart(f, m, c, init, saved, 0x16);
    BlockRule(m, c, c.p + 1 + |EncodeU(i.reg)|, Num(i.reg), i.len, i.block, VAL_EXPRESSION);
  }

  lemma DefCfaOffsetMeans(f: Factors, m: seq<Byte>, c: Core, init: Table, saved: Option<Table>, i: Cfi)
    requires Here(f, m, c.p, i) && i.DefCfaOffset?
    ensures Means(f, m, c, init, saved, i)
  {
    hide U, S, Fixed, ByteAt, Scaled, EncodeU, EncodeS, Stands, Ranged, Apply, Num, Small;
    Opcode(m, c.p, 0x0e, EncodeU(i.off));
    UnsignedOperand(m, c.p + 1, i.off);
    CfaPart(f, m, c, init, saved, 0x0e);
  }

  lemma DefCfaOffsetSfMeans(f: Factors, m: seq<Byte>, c: Core, init: Table, saved: Option<Table>, i: Cfi)
    requires Here(f, m, c.p, i) && i.DefCfaOffsetSf?
    ensures Means(f, m, c, init, saved, i)
  {
    hide U, S, Fixed, ByteAt, Scaled, EncodeU, EncodeS, Stands, Ranged, Small, Apply, Num;
    Opcode(m, c.p, 0x13, EncodeS(i.off));
    SignedOperand(m, c.p + 1, i.off);
    CfaPart(f, m, c, init, saved, 0x13);
  }

  lemma AdvanceByMeans(f: Factors, m: seq<Byte>, c: Core, init: Table, saved: Option<Table>, i: Cfi)
    requires Here(f, m, c.p, i) && i.AdvanceBy?
    ensures Means(f, m, c, init, saved, i)
  {
    hide U, S, Fixed, ByteAt, Scaled, FixedBytes, Stands, Bound, Apply, Num, Small;
    var op := if i.size == 1 then 0x02 else if i.size == 2 then 0x03 else 0x04;
    Opcode(m, c.p, Encode(f, i)[0], FixedBytes(i.d, i.size, f.big));
    FixedOperand(m, c.p + 1, i.d, i.size, f.big);
    LocationPart(f, m, c, init, saved, op);
  }

  lemma SetLocMeans(f: Factors, m: seq<Byte>, c: Core, init: Table, saved: Option<Table>, i: Cfi)
    requires Here(f, m, c.p, i) && i.SetLoc?
    ensures Means(f, m, c, init, saved, i)
  {
    hide U, S, Fixed, ByteAt, Scaled, FixedBytes, Stands, Bound, Apply, Num, Small;
    Opcode(m, c.p, 0x01, FixedBytes(i.a, f.pointerSize, f.big));
    FixedOperand(m, c.p + 1, i.a, f.pointerSize, f.big);
    LocationPart(f, m, c, init, saved, 0x01);
  }

  /** The interpreter does with the bytes of an instruction what the instruction means. */
  lemma ApplyMeans(f: Factors, m: seq<Byte>, c: Core, init: Table, saved: Option<Table>, i: Cfi)
    requires Here(f, m, c.p, i) && !i.Remember?
    ensures Means(f, m, c, init, saved, i)
  {
    hide Means, Writable, Encode, Stands;
    if i.Offset? { OffsetMeans(f, m, c, init, saved, i.r, i.off); }
    else if i.AdvanceBy? { AdvanceByMeans(f, m, c, init, saved, i); }
    else if i.SetLoc? { SetLocMeans(f, m, c, init, saved, i); }
    else if i.RestoreExtended? { RestoreMeans(f, m, c, init, saved, i.reg); }
    else if i.SameValue? { SameMeans(f, m, c, init, saved, i.reg); }
    else if i.Undefined? { UndefinedMeans(f, m, c, init, saved, i.reg); }
    else if i.OffsetExtended? { OffsetExtendedMeans(f, m, c, init, saved, i); }
    else if i.Register? { RegisterMeans(f, m, c, init, saved, i); }
    else if i.ValOffset? { ValOffsetMeans(f, m, c, init, saved, i); }
    else if i.OffsetExtendedSf? { OffsetExtendedSfMeans(f, m, c, init, saved, i); }
    else if i.ValOffsetSf? { ValOffsetSfMeans(f, m, c, init, saved, i); }
    else if i.Expression? { ExpressionMeans(f, m, c, init, saved, i); }
    else if i.ValExpression? { ValExpressionMeans(f, m, c, init, saved, i); }
    else if i.DefCfa? { DefCfaMeans(f, m, c, init, saved, i); }
    else if i.DefCfaSf? { DefCfaSfMeans(f, m, c, init, saved, i); }
    else if i.DefCfaRegister? { CfaRegisterMeans(f, m, c, init, saved, i.reg); }
    else if i.DefCfaOffset? { DefCfaOffsetMeans(f, m, c, init, saved, i); }
    else if i.DefCfaOffsetSf? { DefCfaOffsetSfMeans(f, m, c, init, saved, i); }
    else if i.DefCfaExpression? { CfaBlockMeans(f, m, c, init, saved, i); }
    else if i.Nop? { NopMeans(f, m, c, init, saved, i); }
    else if i.RestoreState? { RestoreStateMeans(f, m, c, init, saved, i); }
    else if i.AdvanceLoc? { AdvanceLocMeans(f, m, c, init, saved, i); }
    else { RestoreLowMeans(f, m, c, init, saved, i); }
  }

  // ---------------------------------------------------------------- whole programs

  function EncodeAll(f: Factors, prog: seq<Cfi>): seq<Byte>
    requires forall k :: 0 <= k < |prog| ==> Writable(f, prog[k])
  {
    if prog == [] then [] else Encode(f, prog[0]) + EncodeAll(f, prog[1..])
  }

  /** What an instruction does to the machine of the standard. */
  function Effected(f: Factors, r: StackMachine, i: Cfi): Outcome
    requires Writable(f, i)
  {
    Perform(r.core, Meaning(f, r.core.pc, r.core.table, r.init, i, BlockPlace(i, r.core.p)), Top(r), r.core.p + |Encode(f, i)|)
  }

  function StackThen(r: StackMachine, i: Cfi, c: Core): StackMachine {
    if i.Remember? then StackMachine(c, r.init, [r.core.table] + r.stack)
    else if i.RestoreState? && r.stack != [] then StackMachine(c, r.init, r.stack[1..])
    else StackMachine(c, r.init, r.stack)
  }

  /** The rows of a program on that machine, and how it ends. */
  function ExecRows(f: Factors, r: StackMachine, prog: seq<Cfi>): (seq<Row>, Status)
    requires forall k :: 0 <= k < |prog| ==> Writable(f, prog[k])
    decreases |prog|
  {
    if prog == [] then ([RowOf(r.core)], Ended)
    else
      var o := Effected(f, r, prog[0]);
      if o.Next? then ExecRows(f, StackThen(r, prog[0], o.c), prog[1..])
      else if o.Moved? then
        var rest := ExecRows(f, StackThen(r, prog[0], o.c), prog[1..]);
        ([RowOf(r.core)] + rest.0, rest.1)
      else ([RowOf(r.core)], Stuck(o))
  }

  lemma FirstByte(f: Factors, i: Cfi)
    requires Writable(f, i)
    ensures Encode(f, i)[0] as nat == REMEMBER_STATE <==> i.Remember?
    ensures Encode(f, i)[0] as nat == RESTORE_STATE <==> i.RestoreState?
    ensures IsRestore(Encode(f, i)[0] as nat) <==> i.Restore? || i.RestoreExtended?
  {
    hide EncodeU, EncodeS, FixedBytes, ToByte;
    if i.AdvanceLoc? { ByteRoundTrip(64 + i.d); }
    else if i.Offset? { ByteRoundTrip(128 + i.r); }
    else if i.Restore? { ByteRoundTrip(192 + i.r); }
  }

  /** One turn of the stack machine on the bytes of an instruction. */
  lemma StackMeans(f: Factors, m: seq<Byte>, r: StackMachine, i: Cfi)
    requires Here(f, m, r.core.p, i)
    ensures StackInst(f, m, r) == Effected(f, r, i)
    ensures forall c :: StackAfter(m, r, c) == StackThen(r, i, c)
  {
    hide Apply, Meaning, Writable, ByteAt, Perform, Encode, BlockPlace, Top;
    StandsAt(m, r.core.p, Encode(f, i), 0);
    FirstByte(f, i);
    OpByte(m, r, Encode(f, i)[0]);
    if i.Remember? { RememberMeans(f, r, i); } else { ApplyMeans(f, m, r.core, r.init, Top(r), i); }
  }

  lemma EffectedPlace(f: Factors, r: StackMachine, i: Cfi)
    requires Writable(f, i)
    ensures Effected(f, r, i).Next? || Effected(f, r, i).Moved? ==> Effected(f, r, i).c.p == r.core.p + |Encode(f, i)|
  {
    hide Meaning, Encode, Writable, BlockPlace, Top;
  }

  lemma OpByte(m: seq<Byte>, r: StackMachine, b: Byte)
    requires At(m, r.core.p) == b
    ensures StackOp(m, r) == b as nat
  {
  }

  lemma RememberMeans(f: Factors, r: StackMachine, i: Cfi)
    requires Writable(f, i) && i.Remember?
    ensures |Encode(f, i)| == 1 && Effected(f, r, i) == Next(r.core.(p := r.core.p + 1))
  {
  }

  /** The rows the stack machine makes of the bytes are the rows the program means. */
  lemma {:induction false} RowsMean(f: Factors, m: seq<Byte>, r: StackMachine, prog: seq<Cfi>)
    requires forall k :: 0 <= k < |prog| ==> Writable(f, prog[k])
    requires Stands(m, r.core.p, EncodeAll(f, prog)) && r.core.p + |EncodeAll(f, prog)| < WORD
    ensures StackFull(f, m, r.core.p + |EncodeAll(f, prog)|, r, |prog|) == ExecRows(f, r, prog)
    decreases |prog|
  {
    hide StackInst, StackAfter, StackThen, Effected, Writable, Encode;
    if prog != [] {
      var i := prog[0];
      StandsTail(m, r.core.p, Encode(f, i), EncodeAll(f, prog[1..]));
      StackMeans(f, m, r, i);
      EffectedPlace(f, r, i);
      var o := Effected(f, r, i);
      if o.Next? || o.Moved? {
        CoreOfThen(r, i, o.c);
        RowsMean(f, m, StackThen(r, i, o.c), prog[1..]);
      }
    }
  }

  lemma CoreOfThen(r: StackMachine, i: Cfi, c: Core)
    ensures StackThen(r, i, c).core == c
  {
  }

  /** The side condition, read off the list: remembering is not nested, a state is restored only while
      one is remembered, and no rule is restored once a state has been remembered. */
  predicate Disciplined(prog: seq<Cfi>, open: bool, remembered: bool) {
    prog != [] ==>
      && (prog[0].Remember? ==> !open)
      && (prog[0].RestoreState? ==> open)
      && (prog[0].Restore? || prog[0].RestoreExtended? ==> !remembered)
      && Disciplined(prog[1..], prog[0].Remember? || (open && !prog[0].RestoreState?), remembered || prog[0].Remember?)
  }

  lemma {:induction false} DisciplinedProper(f: Factors, m: seq<Byte>, r: StackMachine, prog: seq<Cfi>, remembered: bool)
    requires forall k :: 0 <= k < |prog| ==> Writable(f, prog[k])
    requires Stands(m, r.core.p, EncodeAll(f, prog)) && r.core.p + |EncodeAll(f, prog)| < WORD
    requires |r.stack| <= 1 && Disciplined(prog, r.stack != [], remembered)
    ensures ProperRun(f, m, r.core.p + |EncodeAll(f, prog)|, r, remembered, |prog|)
    decreases |prog|
  {
    hide StackInst, Effected, Writable, Encode, ByteAt, IsRestore;
    if prog != [] {
      var i := prog[0];
      StandsTail(m, r.core.p, Encode(f, i), EncodeAll(f, prog[1..]));
      StackMeans(f, m, r, i);
      EffectedPlace(f, r, i);
      StandsAt(m, r.core.p, Encode(f, i), 0);
      FirstByte(f, i);
      OpByte(m, r, Encode(f, i)[0]);
      var o := Effected(f, r, i);
      if o.Next? || o.Moved? {
        DisciplinedProper(f, m, StackThen(r, i, o.c), prog[1..], remembered || i.Remember?);
      }
    }
  }

  /** One turn of the interpreter on the bytes of an instruction goes on exactly past them. */
  lemma TurnPlace(f: Factors, m: seq<Byte>, s: Machine, i: Cfi)
    requires Here(f, m, s.core.p, i)
    ensures Goes(Inst(f, m, s)) ==> Inst(f, m, s).c.p == s.core.p + |Encode(f, i)|
  {
    hide Apply, Meaning, Writable, ByteAt, Encode, BlockPlace;
    StandsAt(m, s.core.p, Encode(f, i), 0);
    FirstByte(f, i);
    assert OpAt(m, s) == Encode(f, i)[0] as nat by { ByteIs(m, s.core.p, Encode(f, i)[0]); }
    if i.Remember? {
      RememberMeans(f, StackMachine(s.core, s.shadow, []), i);
    } else {
      ApplyMeans(f, m, s.core, s.shadow, if s.remembered then Some(s.shadow) else None, i);
    }
  }

  lemma ByteIs(m: seq<Byte>, p: nat, b: Byte)
    requires At(m, p) == b
    ensures ByteAt(m, p) == b as nat
  {
  }

  /** So the interpreter comes back from the bytes of every program, disciplined or not, within one turn
      for each instruction. */
  lemma {:induction false} EncodedReturns(f: Factors, m: seq<Byte>, s: Machine, prog: seq<Cfi>, req: nat)
    requires forall k :: 0 <= k < |prog| ==> Writable(f, prog[k])
    requires Stands(m, s.core.p, EncodeAll(f, prog)) && s.core.p + |EncodeAll(f, prog)| < WORD
    ensures Early(f, m, s.core.p + |EncodeAll(f, prog)|, req, s, |prog|).1 != Running
    decreases |prog|
  {
    hide Inst, Writable, Encode, Early;
    var pe := s.core.p + |EncodeAll(f, prog)|;
    if prog == [] {
      AtEnd(f, m, pe, req, s, 0);
    } else {
      StandsTail(m, s.core.p, Encode(f, prog[0]), EncodeAll(f, prog[1..]));
      TurnPlace(f, m, s, prog[0]);
      var o := Inst(f, m, s);
      if Goes(o) {
        EncodedReturns(f, m, After(m, s, o.c), prog[1..], req);
        if o.Next? { StayTurn(f, m, pe, req, s, |prog|); } else { MoveTurn(f, m, pe, req, s, |prog|); }
      } else {
        StuckTurn(f, m, pe, req, s, |prog|);
      }
    }
  }

  /** So for every disciplined program, the interpreter stopped at a request leaves the row that a
      search of the rows the program means picks, and ends as the program does if it did not stop. */
  lemma LookupMeans(f: Factors, m: seq<Byte>, p: nat, pc: nat, t: Table, prog: seq<Cfi>, req: nat)
    requires forall k :: 0 <= k < |prog| ==> Writable(f, prog[k])
    requires Stands(m, p, EncodeAll(f, prog)) && p + |EncodeAll(f, prog)| < WORD && Disciplined(prog, false, false)
    ensures var (rows, status) := ExecRows(f, StackMachine(Core(p, pc, pc, t), t, []), prog);
            && |rows| > 0
            && var n := Pick(rows, req);
               Early(f, m, p + |EncodeAll(f, prog)|, req, Start(p, pc, t), |prog|) ==
                 (rows[n], if n + 1 < |rows| then Ended else status)
  {
    hide ExecRows, EncodeAll, ProperRun, Full, StackFull, Early, Pick, Writable, Stands, Disciplined;
    var r, pe := StackMachine(Core(p, pc, pc, t), t, []), p + |EncodeAll(f, prog)|;
    RowsMean(f, m, r, prog);
    DisciplinedProper(f, m, r, prog, false);
    ProperRows(f, m, pe, Start(p, pc, t), r, |prog|);
    EarlyIsPick(f, m, pe, req, Start(p, pc, t), |prog|);
  }

  /** And so does the code itself. */
  method Lookup(frames: Frames, f: Factors, m: seq<Byte>, g: Program, ghost prog: seq<Cfi>, pc: nat, req: nat)
    returns (status: Status, rowPc: nat)
    requires forall k :: 0 <= k < |prog| ==> Writable(f, prog[k])
    requires Stands(m, g.insts, EncodeAll(f, prog)) && g.len == |EncodeAll(f, prog)| && g.insts + g.len < WORD
    requires Disciplined(prog, false, false)
    modifies frames
    ensures var t := old(frames.table);
            var (rows, st) := ExecRows(f, StackMachine(Core(g.insts, pc, pc, t), t, []), prog);
            |rows| > 0 && Picked((rows, st), req, status, frames.table, rowPc)
  {
    hide ExecRows, EncodeAll, Full, Early, Pick, Writable, Stands, Disciplined;
    ghost var t := frames.table;
    EncodedReturns(f, m, Start(g.insts, pc, t), prog, req);
    LookupMeans(f, m, g.insts, pc, t, prog, req);
    EarlyIsPick(f, m, End(g), req, Start(g.insts, pc, t), |prog|);
    status, rowPc := frames.RunInst(f, m, g, pc, req);
  }
}
