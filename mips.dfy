/**
 * The MIPS instruction subset that appears in console boot code: register
 * identifiers, primary opcodes, the tagged instruction value, its per-variant
 * information table, and the decoder from a canonical (big-endian) 32-bit word.
 * Words are `bv32`, so the decoder's shifts and masks are the source's own.
 */
module Mips {
  import opened Wrappers

  // ---------------------------------------------------------------------------
  // Registers

  /** The 32 general-purpose registers, by their architectural number. */
  type Gpr = bv5

  const Zero: Gpr := 0
  const T0: Gpr := 8
  const T1: Gpr := 9
  const T2: Gpr := 10
  const Sp: Gpr := 29
  const Ra: Gpr := 31

  /** Register names in register-number order (o32 names). */
  const RegisterNames: seq<string> := [
    "zero", "at", "v0", "v1", "a0", "a1", "a2", "a3",
    "t0", "t1", "t2", "t3", "t4", "t5", "t6", "t7",
    "s0", "s1", "s2", "s3", "s4", "s5", "s6", "s7",
    "t8", "t9", "k0", "k1", "gp", "sp", "fp", "ra"]

  /** The display name of a register. */
  function RegisterName(r: Gpr): (name: string)
    ensures r == Zero <==> name == "zero"
    ensures r != Zero ==> |name| == 2
  {
    RegisterNames[r]
  }

  /**
   * Whether a called function may change the register. `zero`, the saved
   * registers `s0`..`s7`, `k0`, `k1`, `gp` and `ra` are kept; as in the
   * source's table, `sp` and `fp` are marked as clobbered.
   */
  predicate ClobberedByFunc(r: Gpr)
    ensures ClobberedByFunc(r) <==> !(r == Zero || 16 <= r <= 23 || 26 <= r <= 28 || r == Ra)
    ensures r == Sp || r == 30 ==> ClobberedByFunc(r)
  {
    r !in {0, 16, 17, 18, 19, 20, 21, 22, 23, 26, 27, 28, 31}
  }

  /**
   * Conversion of a raw number into a register (`TryFromPrimitive`): it
   * succeeds exactly for the numbers 0..31 and is the inverse of the numbering.
   */
  function GprFromIndex(x: bv32): (r: Option<Gpr>)
    ensures r.Some? <==> x < 32
    ensures r.Some? ==> r.value as bv32 == x
  {
    if x < 32 then Some(x as Gpr) else None
  }

  /**
   * The 5-bit register field that starts at bit `shift`. The conversion
   * cannot fail, because the field is masked with 0x1F first.
   */
  function RegisterField(word: bv32, shift: bv32): (r: Gpr)
    requires shift <= 27
    ensures r as bv32 == (word >> shift) & 0x1F
  {
    GprFromIndex((word >> shift) & 0x1F).value
  }

  // ---------------------------------------------------------------------------
  // Opcodes and formats

  /** The supported primary opcodes (`MipsCPUOp`). */
  datatype CpuOp =
    | Special | Regimm | Jump | JumpAndLink | BranchEqual | BranchNotEqual
    | AddImmediate | AddImmediateUnsigned | OrImmediate | LoadUpperImmediate | StoreWord

  /** The numeric value of each opcode (bits 31..26 of the word). */
  function OpCode(op: CpuOp): bv32
  {
    match op
    case Special => 0x00
    case Regimm => 0x01
    case Jump => 0x02
    case JumpAndLink => 0x03
    case BranchEqual => 0x04
    case BranchNotEqual => 0x05
    case AddImmediate => 0x08
    case AddImmediateUnsigned => 0x09
    case OrImmediate => 0x0D
    case LoadUpperImmediate => 0x0F
    case StoreWord => 0x2B
  }

  /** Conversion of a raw opcode into a `CpuOp`: the inverse of `OpCode`. */
  function OpFromCode(code: bv32): (r: Option<CpuOp>)
    ensures r.Some? ==> OpCode(r.value) == code
    ensures forall op :: OpCode(op) == code ==> r == Some(op)
  {
    if code == 0x00 then Some(Special)
    else if code == 0x01 then Some(Regimm)
    else if code == 0x02 then Some(Jump)
    else if code == 0x03 then Some(JumpAndLink)
    else if code == 0x04 then Some(BranchEqual)
    else if code == 0x05 then Some(BranchNotEqual)
    else if code == 0x08 then Some(AddImmediate)
    else if code == 0x09 then Some(AddImmediateUnsigned)
    else if code == 0x0D then Some(OrImmediate)
    else if code == 0x0F then Some(LoadUpperImmediate)
    else if code == 0x2B then Some(StoreWord)
    else None
  }

  /** The encoding family an opcode selects. */
  datatype Format = SpecialFormat | RegimmFormat | JFormat | IFormat

  /** `instruction_format`: special and regimm have their own families, `j` and `jal` the jump one, the rest the immediate one. */
  function FormatOf(op: CpuOp): (f: Format)
    ensures f == SpecialFormat <==> op == Special
    ensures f == RegimmFormat <==> op == Regimm
    ensures f == JFormat <==> op == Jump || op == JumpAndLink
  {
    match op
    case Special => SpecialFormat
    case Regimm => RegimmFormat
    case Jump | JumpAndLink => JFormat
    case _ => IFormat
  }

  /** The supported function codes of the special opcode (`MipsCPUFunc`). */
  datatype CpuFunc = JumpRegister

  function FuncCode(f: CpuFunc): bv32
  {
    match f
    case JumpRegister => 0x08
  }

  /** Conversion of a raw function code into a `CpuFunc`: the inverse of `FuncCode`. */
  function FuncFromCode(code: bv32): (r: Option<CpuFunc>)
    ensures r.Some? ==> FuncCode(r.value) == code
    ensures r.None? ==> code != FuncCode(JumpRegister)
  {
    if code == 0x08 then Some(JumpRegister) else None
  }

  // ---------------------------------------------------------------------------
  // Instructions

  /**
   * A decoded instruction (`MipsInstruction`): the real instructions, the
   * pseudo-instructions `b`, `beqz`, `bnez` and `nop`, and the two error forms.
   * Immediates and offsets are the raw 16-bit field, neither shifted nor
   * sign-extended.
   */
  datatype Instruction =
    | J(addr: bv32)
    | Jal(addr: bv32)
    | Beq(rCmpL: Gpr, rCmpR: Gpr, offset: bv32)
    | Bne(rCmpL: Gpr, rCmpR: Gpr, offset: bv32)
    | Addi(rSrc: Gpr, rDest: Gpr, imm: bv32)
    | Addiu(rSrc: Gpr, rDest: Gpr, imm: bv32)
    | Ori(rSrc: Gpr, rDest: Gpr, imm: bv32)
    | Lui(rDest: Gpr, imm: bv32)
    | Sw(rBase: Gpr, rSrc: Gpr, offset: bv32)
    | Jr(rSrc: Gpr)
    | B(offset: bv32)
    | Beqz(rCmp: Gpr, offset: bv32)
    | Bnez(rCmp: Gpr, offset: bv32)
    | Nop
    | Unknown(opcode: bv32, word: bv32)
    | Invalid(opcode: bv32, word: bv32)

  /** Display name and branch/jump classification of an instruction. */
  datatype InstructionInfo = InstructionInfo(name: string, isBranch: bool, isJump: bool)

  /**
   * The per-variant information table. As in the source, `beq` is named
   * "bne" and `beqz` is named "bnez".
   */
  function Info(i: Instruction): (info: InstructionInfo)
    ensures !(info.isBranch && info.isJump)
  {
    match i
    case J(_) => InstructionInfo("j", false, true)
    case Jal(_) => InstructionInfo("jal", false, true)
    case Beq(_, _, _) => InstructionInfo("bne", true, false)
    case Bne(_, _, _) => InstructionInfo("bne", true, false)
    case Addi(_, _, _) => InstructionInfo("addi", false, false)
    case Addiu(_, _, _) => InstructionInfo("addiu", false, false)
    case Ori(_, _, _) => InstructionInfo("ori", false, false)
    case Lui(_, _) => InstructionInfo("lui", false, false)
    case Sw(_, _, _) => InstructionInfo("sw", false, false)
    case Jr(_) => InstructionInfo("jr", false, true)
    case B(_) => InstructionInfo("b", true, false)
    case Beqz(_, _) => InstructionInfo("bnez", true, false)
    case Bnez(_, _) => InstructionInfo("bnez", true, false)
    case Nop => InstructionInfo("nop", false, false)
    case Unknown(_, _) => InstructionInfo("unknown", false, false)
    case Invalid(_, _) => InstructionInfo("invalid instruction", false, false)
  }

  /** The name an instruction is printed under: "bne" and "bnez" each stand for two instructions. */
  function Name(i: Instruction): (name: string)
    ensures name == "bne" <==> i.Beq? || i.Bne?
    ensures name == "bnez" <==> i.Beqz? || i.Bnez?
    ensures name == "nop" <==> i.Nop?
  {
    Info(i).name
  }

  /** The conditional branches, real or pseudo; none of them is also a jump. */
  predicate IsBranch(i: Instruction)
    ensures IsBranch(i) <==> i.Beq? || i.Bne? || i.B? || i.Beqz? || i.Bnez?
    ensures IsBranch(i) ==> !IsJump(i)
  {
    Info(i).isBranch
  }

  /** The unconditional jumps: `j`, `jal` and `jr`. */
  predicate IsJump(i: Instruction)
    ensures IsJump(i) <==> i.J? || i.Jal? || i.Jr?
  {
    Info(i).isJump
  }

  /**
   * The instruction that follows a branch or a jump sits in its delay slot:
   * the jumps, `jr` and the branches, real or pseudo.
   */
  predicate HasDelaySlot(i: Instruction)
    ensures HasDelaySlot(i) <==>
      i.J? || i.Jal? || i.Jr? || i.Beq? || i.Bne? || i.B? || i.Beqz? || i.Bnez?
  {
    IsBranch(i) || IsJump(i)
  }

  // ---------------------------------------------------------------------------
  // Decoding

  /**
   * The field bounds every decoded instruction satisfies: 16-bit immediates
   * and offsets, word-aligned 28-bit jump addresses, 6-bit raw opcodes.
   */
  predicate FieldsInRange(i: Instruction)
  {
    match i
    case J(addr) => addr % 4 == 0 && addr < 0x1000_0000
    case Jal(addr) => addr % 4 == 0 && addr < 0x1000_0000
    case Beq(_, _, offset) => offset < 0x1_0000
    case Bne(_, _, offset) => offset < 0x1_0000
    case Addi(_, _, imm) => imm < 0x1_0000
    case Addiu(_, _, imm) => imm < 0x1_0000
    case Ori(_, _, imm) => imm < 0x1_0000
    case Lui(_, imm) => imm < 0x1_0000
    case Sw(_, _, offset) => offset < 0x1_0000
    case Jr(_) => true
    case B(offset) => offset < 0x1_0000
    case Beqz(_, offset) => offset < 0x1_0000
    case Bnez(_, offset) => offset < 0x1_0000
    case Nop => true
    case Unknown(opcode, _) => opcode < 64
    case Invalid(opcode, _) => opcode < 64
  }

  /**
   * The instructions the decoder can produce with `Ok`, other than `unknown`:
   * fields in range and branches in their canonical (pseudo-)form.
   */
  predicate Encodable(i: Instruction)
  {
    && FieldsInRange(i)
    && !i.Unknown? && !i.Invalid?
    && (i.Beq? ==> i.rCmpR != Zero)
    && (i.Bne? ==> i.rCmpR != Zero)
    && (i.Beqz? ==> i.rCmp != Zero)
  }

  /** What every decoding step promises about its result for `word`. */
  predicate DecodedFrom(word: bv32, r: Result<Instruction, Instruction>)
  {
    && (r.Err? ==> r.error == Invalid(word >> 26, word))
    && (r.Ok? ==> FieldsInRange(r.value) && !r.value.Invalid?)
    && (r.Ok? && r.value.Unknown? ==> r.value == Unknown(word >> 26, word))
    && (r.Ok? && !r.value.Unknown? ==> Encodable(r.value))
  }

  /**
   * `disassemble_word`: decode a canonical-order word. Unsupported opcodes
   * and function codes give `Ok(Unknown)`; `jr` and `lui` whose must-be-zero
   * fields are not zero give `Err(Invalid)`.
   */
  function Disassemble(word: bv32): (r: Result<Instruction, Instruction>)
    ensures word == 0 ==> r == Ok(Nop)
    ensures DecodedFrom(word, r)
  {
    var opcode := word >> 26;
    match OpFromCode(opcode)
    case None => Ok(Unknown(opcode, word))
    case Some(op) =>
      if word == 0 then Ok(Nop)
      else
        match FormatOf(op)
        case SpecialFormat => DisassembleSpecial(word)
        case IFormat => DisassembleImmediate(word, op)
        case JFormat => DisassembleJump(word, op)
        case RegimmFormat => Ok(Unknown(opcode, word))
  }

  /**
   * The register format. The function code is the low five bits only, and
   * the `jr` "rd" check reads bits 14..10, as in the source.
   */
  function DisassembleSpecial(word: bv32): (r: Result<Instruction, Instruction>)
    requires word >> 26 == OpCode(Special)
    ensures DecodedFrom(word, r)
  {
    var opcode := word >> 26;
    var rs := RegisterField(word, 21);
    var rt := RegisterField(word, 16);
    var rd := RegisterField(word, 10);
    match FuncFromCode(word & 0x1F)
    case None => Ok(Unknown(opcode, word))
    case Some(JumpRegister) =>
      if rt == Zero && rd == Zero then Ok(Jr(rs)) else Err(Invalid(opcode, word))
  }

  /**
   * The immediate format, with `beq`/`bne` canonicalised into `b`, `beqz`
   * and `bnez` when the second register field is `zero`.
   */
  function DisassembleImmediate(word: bv32, op: CpuOp): (r: Result<Instruction, Instruction>)
    requires word >> 26 == OpCode(op) && FormatOf(op) == IFormat
    ensures DecodedFrom(word, r)
  {
    var opcode := word >> 26;
    var rs := RegisterField(word, 21);
    var rt := RegisterField(word, 16);
    var imm := word & 0xFFFF;
    match op
    case AddImmediate => Ok(Addi(rs, rt, imm))
    case AddImmediateUnsigned => Ok(Addiu(rs, rt, imm))
    case OrImmediate => Ok(Ori(rs, rt, imm))
    case StoreWord => Ok(Sw(rs, rt, imm))
    case LoadUpperImmediate =>
      if rs == Zero then Ok(Lui(rt, imm)) else Err(Invalid(opcode, word))
    case BranchEqual =>
      if rt == Zero then
        if rs == Zero then Ok(B(imm)) else Ok(Beqz(rs, imm))
      else Ok(Beq(rs, rt, imm))
    case BranchNotEqual =>
      if rt == Zero then Ok(Bnez(rs, imm)) else Ok(Bne(rs, rt, imm))
    case _ => Ok(Unknown(opcode, word))
  }

  /** The jump format: the 26-bit target field, shifted to a byte address. */
  function DisassembleJump(word: bv32, op: CpuOp): (r: Result<Instruction, Instruction>)
    requires word >> 26 == OpCode(op) && FormatOf(op) == JFormat
    ensures DecodedFrom(word, r)
  {
    var opcode := word >> 26;
    var addr := (word & 0x3FF_FFFF) << 2;
    match op
    case Jump => Ok(J(addr))
    case JumpAndLink => Ok(Jal(addr))
    case _ => Ok(Unknown(opcode, word))
  }

  // ---------------------------------------------------------------------------
  // Encoding: the reference the decoder is checked against

  /** An immediate-format word from its opcode, two register fields and a 16-bit field. */
  function IWord(op: CpuOp, rs: Gpr, rt: Gpr, imm: bv32): bv32
  {
    (OpCode(op) << 26) | ((rs as bv32) << 21) | ((rt as bv32) << 16) | imm
  }

  /** A jump-format word from its opcode and its byte address. */
  function JWord(op: CpuOp, addr: bv32): bv32
  {
    (OpCode(op) << 26) | (addr >> 2)
  }

  /** The MIPS encoding of an instruction the decoder can produce. */
  function Encode(i: Instruction): bv32
    requires Encodable(i)
  {
    match i
    case J(addr) => JWord(Jump, addr)
    case Jal(addr) => JWord(JumpAndLink, addr)
    case Beq(rs, rt, offset) => IWord(BranchEqual, rs, rt, offset)
    case Bne(rs, rt, offset) => IWord(BranchNotEqual, rs, rt, offset)
    case Addi(rs, rt, imm) => IWord(AddImmediate, rs, rt, imm)
    case Addiu(rs, rt, imm) => IWord(AddImmediateUnsigned, rs, rt, imm)
    case Ori(rs, rt, imm) => IWord(OrImmediate, rs, rt, imm)
    case Lui(rt, imm) => IWord(LoadUpperImmediate, Zero, rt, imm)
    case Sw(base, rt, offset) => IWord(StoreWord, base, rt, offset)
    case Jr(rs) => ((rs as bv32) << 21) | FuncCode(JumpRegister)
    case B(offset) => IWord(BranchEqual, Zero, Zero, offset)
    case Beqz(rs, offset) => IWord(BranchEqual, rs, Zero, offset)
    case Bnez(rs, offset) => IWord(BranchNotEqual, rs, Zero, offset)
    case Nop => 0
  }
}
