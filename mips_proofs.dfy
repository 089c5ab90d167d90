/**
 * Properties of the decoder in module Mips: which words give which
 * instruction, which are unknown or invalid, and the round trip with the
 * MIPS encoding.
 */
module MipsProofs {
  import opened Wrappers
  import opened Mips

  lemma OpCodeBound(op: CpuOp)
    ensures OpCode(op) < 64
  {
  }

  /** The fields of an immediate-format word are the ones it was built from. */
  lemma IWordFields(op: CpuOp, rs: Gpr, rt: Gpr, imm: bv32)
    requires imm < 0x1_0000
    ensures var w := IWord(op, rs, rt, imm);
      && w >> 26 == OpCode(op)
      && RegisterField(w, 21) == rs
      && RegisterField(w, 16) == rt
      && w & 0xFFFF == imm
  {
    OpCodeBound(op);
  }

  /**
   * An immediate-format word is decoded by `DisassembleImmediate`, and its
   * fields are the ones it was built from.
   */
  lemma DecodeIWord(op: CpuOp, rs: Gpr, rt: Gpr, imm: bv32)
    requires FormatOf(op) == IFormat && imm < 0x1_0000
    ensures var w := IWord(op, rs, rt, imm);
      && Disassemble(w) == DisassembleImmediate(w, op)
      && RegisterField(w, 21) == rs
      && RegisterField(w, 16) == rt
      && w & 0xFFFF == imm
  {
    IWordFields(op, rs, rt, imm);
  }

  /** Decoding the encoding of any instruction the decoder can produce gives it back. */
  lemma DecodeEncode(i: Instruction)
    requires Encodable(i)
    ensures Disassemble(Encode(i)) == Ok(i)
  {
    if i.J? { RoundTripJ(i); }
    else if i.Jal? { RoundTripJal(i); }
    else if i.Jr? { RoundTripJr(i); }
    else if i.Addi? { RoundTripAddi(i); }
    else if i.Addiu? { RoundTripAddiu(i); }
    else if i.Ori? { RoundTripOri(i); }
    else if i.Lui? { RoundTripLui(i); }
    else if i.Sw? { RoundTripSw(i); }
    else if i.Beq? { RoundTripBeq(i); }
    else if i.Bne? { RoundTripBne(i); }
    else if i.B? { RoundTripB(i); }
    else if i.Beqz? { RoundTripBeqz(i); }
    else if i.Bnez? { RoundTripBnez(i); }
  }

  lemma RoundTripJ(i: Instruction)
    requires Encodable(i) && i.J?
    ensures Disassemble(Encode(i)) == Ok(i)
  {
  }

  lemma RoundTripJal(i: Instruction)
    requires Encodable(i) && i.Jal?
    ensures Disassemble(Encode(i)) == Ok(i)
  {
  }

  lemma RoundTripJr(i: Instruction)
    requires Encodable(i) && i.Jr?
    ensures Disassemble(Encode(i)) == Ok(i)
  {
  }

  lemma RoundTripAddi(i: Instruction)
    requires Encodable(i) && i.Addi?
    ensures Disassemble(Encode(i)) == Ok(i)
  {
    var Addi(rs, rt, imm) := i;
    DecodeIWord(AddImmediate, rs, rt, imm);
  }

  lemma RoundTripAddiu(i: Instruction)
    requires Encodable(i) && i.Addiu?
    ensures Disassemble(Encode(i)) == Ok(i)
  {
    var Addiu(rs, rt, imm) := i;
    DecodeIWord(AddImmediateUnsigned, rs, rt, imm);
  }

  lemma RoundTripOri(i: Instruction)
    requires Encodable(i) && i.Ori?
    ensures Disassemble(Encode(i)) == Ok(i)
  {
    var Ori(rs, rt, imm) := i;
    DecodeIWord(OrImmediate, rs, rt, imm);
  }

  lemma RoundTripLui(i: Instruction)
    requires Encodable(i) && i.Lui?
    ensures Disassemble(Encode(i)) == Ok(i)
  {
    var Lui(rt, imm) := i;
    DecodeIWord(LoadUpperImmediate, Zero, rt, imm);
  }

  lemma RoundTripSw(i: Instruction)
    requires Encodable(i) && i.Sw?
    ensures Disassemble(Encode(i)) == Ok(i)
  {
    var Sw(base, rt, offset) := i;
    DecodeIWord(StoreWord, base, rt, offset);
  }

  lemma RoundTripBeq(i: Instruction)
    requires Encodable(i) && i.Beq?
    ensures Disassemble(Encode(i)) == Ok(i)
  {
    var Beq(rs, rt, offset) := i;
    DecodeIWord(BranchEqual, rs, rt, offset);
  }

  lemma RoundTripBne(i: Instruction)
    requires Encodable(i) && i.Bne?
    ensures Disassemble(Encode(i)) == Ok(i)
  {
    var Bne(rs, rt, offset) := i;
    DecodeIWord(BranchNotEqual, rs, rt, offset);
  }

  lemma RoundTripB(i: Instruction)
    requires Encodable(i) && i.B?
    ensures Disassemble(Encode(i)) == Ok(i)
  {
    var B(offset) := i;
    DecodeIWord(BranchEqual, Zero, Zero, offset);
  }

  lemma RoundTripBeqz(i: Instruction)
    requires Encodable(i) && i.Beqz?
    ensures Disassemble(Encode(i)) == Ok(i)
  {
    var Beqz(rs, offset) := i;
    DecodeIWord(BranchEqual, rs, Zero, offset);
  }

  lemma RoundTripBnez(i: Instruction)
    requires Encodable(i) && i.Bnez?
    ensures Disassemble(Encode(i)) == Ok(i)
  {
    var Bnez(rs, offset) := i;
    DecodeIWord(BranchNotEqual, rs, Zero, offset);
  }

  /**
   * Encoding a decoded instruction gives back the word, except that `jr`
   * ignores bit 15, bits 9..5 and the sixth bit of the function code.
   */
  lemma EncodeDecode(word: bv32)
    requires Disassemble(word).Ok? && !Disassemble(word).value.Unknown?
    ensures Encode(Disassemble(word).value) ==
      if Disassemble(word).value.Jr? then word & 0xFFFF_7C1F else word
  {
    var opcode := word >> 26;
    UnknownOpcodes(word);
    if word == 0 {
    } else if opcode == 0x00 {
      SpecialDispatch(word);
      EncodeDecodeSpecial(word);
    } else if opcode == 0x02 || opcode == 0x03 {
      var op := OpFromCode(opcode).value;
      JumpDispatch(word, op);
      EncodeDecodeJump(word, op);
    } else {
      var op := OpFromCode(opcode).value;
      ImmediateDispatch(word, op);
      EncodeDecodeImmediate(word, op);
    }
  }

  /** Opcodes outside the table, and `regimm`, decode to `unknown`. */
  lemma UnknownOpcodes(word: bv32)
    ensures OpFromCode(word >> 26).None? || word >> 26 == 0x01 ==>
      Disassemble(word) == Ok(Unknown(word >> 26, word))
  {
  }

  lemma SpecialDispatch(word: bv32)
    requires word >> 26 == 0x00 && word != 0
    ensures Disassemble(word) == DisassembleSpecial(word)
  {
  }

  lemma JumpDispatch(word: bv32, op: CpuOp)
    requires word >> 26 == OpCode(op) && FormatOf(op) == JFormat
    ensures Disassemble(word) == DisassembleJump(word, op)
  {
  }

  lemma EncodeDecodeSpecial(word: bv32)
    requires word >> 26 == 0x00
    requires DisassembleSpecial(word).Ok? && !DisassembleSpecial(word).value.Unknown?
    ensures DisassembleSpecial(word).value.Jr?
    ensures Encode(DisassembleSpecial(word).value) == word & 0xFFFF_7C1F
  {
  }

  lemma EncodeDecodeJump(word: bv32, op: CpuOp)
    requires word >> 26 == OpCode(op) && FormatOf(op) == JFormat
    ensures Encode(DisassembleJump(word, op).value) == word
  {
    if op == Jump {
      assert DisassembleJump(word, op) == Ok(J((word & 0x3FF_FFFF) << 2));
    } else {
      assert DisassembleJump(word, op) == Ok(Jal((word & 0x3FF_FFFF) << 2));
    }
  }

  lemma ImmediateDispatch(word: bv32, op: CpuOp)
    requires word >> 26 == OpCode(op) && FormatOf(op) == IFormat && word != 0
    ensures Disassemble(word) == DisassembleImmediate(word, op)
  {
  }

  /** A word is the immediate-format word built from its own fields. */
  lemma IWordOfFields(word: bv32, op: CpuOp)
    requires word >> 26 == OpCode(op)
    ensures IWord(op, RegisterField(word, 21), RegisterField(word, 16), word & 0xFFFF) == word
  {
  }

  lemma EncodeDecodeImmediate(word: bv32, op: CpuOp)
    requires word >> 26 == OpCode(op) && FormatOf(op) == IFormat
    requires DisassembleImmediate(word, op).Ok? && !DisassembleImmediate(word, op).value.Unknown?
    ensures Encode(DisassembleImmediate(word, op).value) == word
  {
    IWordOfFields(word, op);
  }

  /**
   * A word is `Ok(unknown)` exactly when its opcode is none of the eleven
   * supported ones, or is `regimm`, or is `special` with a function code
   * (low five bits) other than 8.
   */
  lemma UnknownExactly(word: bv32)
    ensures Disassemble(word) == Ok(Unknown(word >> 26, word)) <==>
      || word >> 26 !in {0x00, 0x01, 0x02, 0x03, 0x04, 0x05, 0x08, 0x09, 0x0D, 0x0F, 0x2B}
      || word >> 26 == 0x01
      || (word >> 26 == 0x00 && word != 0 && word & 0x1F != 0x08)
  {
  }

  /**
   * A word is `Err(invalid)` exactly when it is a `jr` whose bits 20..16 or
   * 14..10 are not zero, or a `lui` whose bits 25..21 are not zero.
   */
  lemma InvalidExactly(word: bv32)
    ensures Disassemble(word).Err? <==>
      || (word >> 26 == 0x00 && word & 0x1F == 0x08 && word & 0x001F_7C00 != 0)
      || (word >> 26 == 0x0F && word & 0x03E0_0000 != 0)
  {
  }

  /** `jr` carries bits 25..21 as its source register when its checked fields are zero. */
  lemma DecodeJr(word: bv32)
    requires word >> 26 == 0x00 && word & 0x1F == 0x08
    ensures Disassemble(word) ==
      if word & 0x001F_7C00 == 0 then Ok(Jr(RegisterField(word, 21)))
      else Err(Invalid(0x00, word))
  {
  }

  /** `lui` keeps its immediate unshifted and needs bits 25..21 to be zero. */
  lemma DecodeLui(word: bv32)
    requires word >> 26 == 0x0F
    ensures Disassemble(word) ==
      if word & 0x03E0_0000 == 0 then Ok(Lui(RegisterField(word, 16), word & 0xFFFF))
      else Err(Invalid(0x0F, word))
  {
  }

  /**
   * `beq` becomes `b` when both register fields are zero, `beqz` when only
   * the second is, and stays `beq` otherwise.
   */
  lemma DecodeBeq(word: bv32)
    requires word >> 26 == 0x04
    ensures var rs, rt, offset := RegisterField(word, 21), RegisterField(word, 16), word & 0xFFFF;
      Disassemble(word) ==
        if rt == Zero && rs == Zero then Ok(B(offset))
        else if rt == Zero then Ok(Beqz(rs, offset))
        else Ok(Beq(rs, rt, offset))
  {
  }

  /** `bne` becomes `bnez` whenever the second register field is zero, even if the first is. */
  lemma DecodeBne(word: bv32)
    requires word >> 26 == 0x05
    ensures var rs, rt, offset := RegisterField(word, 21), RegisterField(word, 16), word & 0xFFFF;
      Disassemble(word) ==
        if rt == Zero then Ok(Bnez(rs, offset)) else Ok(Bne(rs, rt, offset))
  {
  }

  /** The info table reports `beq` as "bne" and `beqz` as "bnez". */
  lemma BeqNamedBne(rs: Gpr, rt: Gpr, offset: bv32)
    ensures Name(Beq(rs, rt, offset)) == "bne" && Name(Beqz(rs, offset)) == "bnez"
  {
  }

  /** `lui t0, 0x8004`: the immediate is kept unshifted. */
  lemma SpecimenLui()
    ensures Disassemble(0x3C08_8004) == Ok(Lui(T0, 0x8004))
  {
  }

  /** `addiu t0, t0, 0xE940` and `addi t1, t1, 0xFFF8`: the immediates are not sign-extended. */
  lemma SpecimenAdds()
    ensures Disassemble(0x2508_E940) == Ok(Addiu(T0, T0, 0xE940))
    ensures Disassemble(0x2129_FFF8) == Ok(Addi(T1, T1, 0xFFF8))
  {
  }

  /** `bne t1, zero, ...` is canonicalised to `bnez t1`. */
  lemma SpecimenBnez()
    ensures Disassemble(0x1520_FFFC) == Ok(Bnez(T1, 0xFFFC))
  {
  }

  /** `jr t2` as the fixture has it, with bit 15 set (not checked), and with bit 10 set (checked). */
  lemma JrSpecimens()
    ensures Disassemble(0x0140_0008) == Ok(Jr(T2))
    ensures Disassemble(0x0140_8008) == Ok(Jr(T2))
    ensures Disassemble(0x0140_0408) == Err(Invalid(0x00, 0x0140_0408))
  {
  }
}
