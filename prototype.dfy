/**
 * The prototype analyser (src/main.rs): an earlier, standalone version of
 * the decoder and the register tracking, run over a fixed fifteen-word boot
 * code. Its decoder knows fewer instructions and panics on everything else;
 * its tracking reuses the state and the result computation of `parse`.
 */
module Prototype {
  import opened Wrappers
  import opened Uint
  import Mips
  import Entrypoint

  type Gpr = Mips.Gpr

  // ---------------------------------------------------------------------------
  // Opcodes, function codes, instruction forms

  /**
   * The primary opcodes the prototype knows (`MipsCPUOp`). The two marker
   * values `nop` (0x80) and `error` (0xFF) do not fit in six bits and are
   * never produced from a word, so they are not modelled.
   */
  datatype ProtoOp = Special | J | Jal | Bne | Addi | Addiu | Lui | Sw

  function ProtoOpCode(op: ProtoOp): bv32
  {
    match op
    case Special => 0x00
    case J => 0x02
    case Jal => 0x03
    case Bne => 0x05
    case Addi => 0x08
    case Addiu => 0x09
    case Lui => 0x0F
    case Sw => 0x2B
  }

  /** `opcode.try_into()`: the inverse of `ProtoOpCode`. */
  function ProtoOpFromCode(code: bv32): (r: Option<ProtoOp>)
    ensures r.Some? ==> ProtoOpCode(r.value) == code
    ensures forall op :: ProtoOpCode(op) == code ==> r == Some(op)
  {
    if code == 0x00 then Some(Special)
    else if code == 0x02 then Some(J)
    else if code == 0x03 then Some(Jal)
    else if code == 0x05 then Some(Bne)
    else if code == 0x08 then Some(Addi)
    else if code == 0x09 then Some(Addiu)
    else if code == 0x0F then Some(Lui)
    else if code == 0x2B then Some(Sw)
    else None
  }

  /**
   * The special-opcode functions (`MipsCPUFunc`): `jr`, and `nop`, which
   * only the all-zero word produces. The `error` marker is never produced.
   */
  datatype ProtoFunc = FuncJr | FuncNop

  /** `MipsInstructionFormat`: the three encoding families and the error form. */
  datatype Form =
    | SpecialForm(func: ProtoFunc, rs: Gpr, rt: Gpr, rd: Gpr)
    | JForm(op: ProtoOp, addr: bv32)
    | IForm(op: ProtoOp, rs: Gpr, rt: Gpr, imm: bv32)
    | ErrorForm(word: bv32)

  // ---------------------------------------------------------------------------
  // Decoding

  /**
   * The words `disassemble_word` decodes without panicking: the opcode is
   * one of the eight (the `unwrap` of the opcode); a non-zero special word
   * has function code 8 in its low five bits (the `unwrap` of the function)
   * and bits 20..6 clear (the `jr` assertion); a `lui` has bits 25..21
   * clear (its assertion).
   */
  predicate Decodable(word: bv32)
  {
    match ProtoOpFromCode(word >> 26)
    case None => false
    case Some(op) =>
      match op
      case Special => word == 0 || (word & 0x1F == 0x08 && word & 0x001F_FFC0 == 0)
      case Lui => word & 0x03E0_0000 == 0
      case _ => true
  }

  /**
   * The forms the decoder produces: no error form, `nop` with zero fields,
   * `jr` with zero `rt`/`rd`, jumps only for `j`/`jal`, immediate forms
   * only for the other five opcodes with a 16-bit field, `lui` with `rs`
   * zero, and word-aligned 28-bit jump addresses.
   */
  predicate WellFormed(f: Form)
  {
    match f
    case SpecialForm(func, rs, rt, rd) =>
      rt == Mips.Zero && rd == Mips.Zero && (func == FuncNop ==> rs == Mips.Zero)
    case JForm(op, addr) => (op == J || op == Jal) && addr % 4 == 0 && addr < 0x1000_0000
    case IForm(op, rs, _, imm) =>
      op !in {Special, J, Jal} && imm < 0x1_0000 && (op == Lui ==> rs == Mips.Zero)
    case ErrorForm(_) => false
  }

  /**
   * `disassemble_word` of src/main.rs. The zero word is `nop`; `jr` takes
   * `word >> 21` as its register, which the zero opcode keeps below 32.
   * The two arms that build the error form follow an `unwrap` that has
   * already panicked on the same inputs, so they are never reached.
   */
  function ProtoDisassemble(word: bv32): (f: Form)
    requires Decodable(word)
    ensures word == 0 ==> f == SpecialForm(FuncNop, Mips.Zero, Mips.Zero, Mips.Zero)
    ensures WellFormed(f)
  {
    var op := ProtoOpFromCode(word >> 26).value;
    if word == 0 then SpecialForm(FuncNop, Mips.Zero, Mips.Zero, Mips.Zero)
    else
      match op
      case Special => SpecialForm(FuncJr, Mips.GprFromIndex(word >> 21).value, Mips.Zero, Mips.Zero)
      case J => JForm(op, (word & 0x3FF_FFFF) << 2)
      case Jal => JForm(op, (word & 0x3FF_FFFF) << 2)
      case Lui => IForm(op, Mips.Zero, Mips.RegisterField(word, 16), word & 0xFFFF)
      case _ => IForm(op, Mips.RegisterField(word, 21), Mips.RegisterField(word, 16), word & 0xFFFF)
  }

  /**
   * `is_branch`: true for an immediate form whose opcode is `bne`, a
   * special form whose function is `jr`, and every jump form.
   */
  predicate ProtoIsBranch(f: Form)
    ensures ProtoIsBranch(f) <==> f.JForm? || (f.IForm? && f.op == Bne) || (f.SpecialForm? && f.func == FuncJr)
  {
    match f
    case IForm(op, _, _, _) => op in [Bne]
    case SpecialForm(func, _, _, _) => func in [FuncJr]
    case JForm(_, _) => true
    case ErrorForm(_) => false
  }

  // ---------------------------------------------------------------------------
  // Register tracking

  /**
   * One step of the loop in `main`: as in `parse`, but without an `ori`
   * case, and `bne` records its first register whatever the second is.
   */
  function ProtoTrack(s: Entrypoint.Tracker, f: Form): (t: Entrypoint.Tracker)
    ensures !(f.IForm? && (f.op == Lui || f.op == Addiu)) ==> t.reg == s.reg
    ensures f.IForm? && (f.op == Lui || f.op == Addiu) ==> t.reg == s.reg[f.rt := t.reg[f.rt]]
  {
    match f
    case IForm(Lui, _, rt, imm) => s.(reg := s.reg[rt := Entrypoint.LuiValue(imm)])
    case IForm(Addiu, rs, rt, imm) => s.(reg := s.reg[rt := Entrypoint.AddiuValue(s.reg[rs], imm)])
    case IForm(Addi, _, _, imm) => s.(bssSign := if imm >= 0x8000 then s.bssSign - 1 else s.bssSign + 1)
    case IForm(Bne, rs, _, _) => s.(branchReg := rs)
    case IForm(Sw, rs, _, _) => s.(bssPtrReg := rs)
    case SpecialForm(FuncJr, rs, _, _) => s.(jumpReg := rs)
    case _ => s
  }

  /** The zero-word count after `word`, given `zeros` zero words just before it. */
  function NextZeros(word: bv32, zeros: nat): nat
  {
    if word == 0 then zeros + 1 else 0
  }

  /**
   * The words `main` gets through without panicking: every word it decodes,
   * up to the second of two consecutive zero words, is decodable.
   */
  predicate Runnable(words: seq<bv32>, zeros: nat)
    decreases |words|
  {
    |words| == 0
    || NextZeros(words[0], zeros) > 1
    || (Decodable(words[0]) && Runnable(words[1..], NextZeros(words[0], zeros)))
  }

  /** The loop of `main` as a function of the words still to come; each word moves the `addi` balance by at most one. */
  function ProtoScan(words: seq<bv32>, s: Entrypoint.Tracker, zeros: nat): (t: Entrypoint.Tracker)
    requires Runnable(words, zeros)
    ensures -|words| <= t.bssSign - s.bssSign <= |words|
    decreases |words|
  {
    if |words| == 0 then s
    else
      var nops := NextZeros(words[0], zeros);
      if nops > 1 then s
      else ProtoScan(words[1..], ProtoTrack(s, ProtoDisassemble(words[0])), nops)
  }

  /**
   * The `match instr` of the loop in `main`: the register file is updated
   * in place, the recorded registers and the `addi` balance are returned.
   */
  method ProtoTrackStep(reg: array<U32>, f: Form, branchReg: Gpr, bssPtrReg: Gpr, jumpReg: Gpr, bssSign: int)
    returns (branchReg': Gpr, bssPtrReg': Gpr, jumpReg': Gpr, bssSign': int)
    requires reg.Length == 32
    modifies reg
    ensures Entrypoint.Tracker(reg[..], branchReg', bssPtrReg', jumpReg', bssSign')
      == ProtoTrack(Entrypoint.Tracker(old(reg[..]), branchReg, bssPtrReg, jumpReg, bssSign), f)
  {
    branchReg', bssPtrReg', jumpReg', bssSign' := branchReg, bssPtrReg, jumpReg, bssSign;
    match f {
      case IForm(Lui, _, rt, imm) =>
        Entrypoint.SetRegister(reg, rt, Entrypoint.LuiValue(imm));
      case IForm(Addiu, rs, rt, imm) =>
        Entrypoint.SetRegister(reg, rt, Entrypoint.AddiuValue(reg[rs], imm));
      case IForm(Addi, _, _, imm) =>
        bssSign' := if imm >= 0x8000 then bssSign - 1 else bssSign + 1;
      case IForm(Bne, rs, _, _) =>
        branchReg' := rs;
      case IForm(Sw, rs, _, _) =>
        bssPtrReg' := rs;
      case SpecialForm(FuncJr, rs, _, _) =>
        jumpReg' := rs;
      case _ =>
    }
  }

  /**
   * The loop of `main` over a word list, with the register file in an
   * array, followed by the result computation it shares with `parse`.
   * The printed trace is not modelled.
   */
  method RunPrototype(words: seq<bv32>) returns (a: Entrypoint.Analysis)
    requires Runnable(words, 0)
    ensures a == Entrypoint.Finish(ProtoScan(words, Entrypoint.Initial, 0))
  {
    var reg := new U32[32](_ => 0);
    var branchReg: Gpr := Mips.Zero;
    var bssPtrReg: Gpr := Mips.Zero;
    var jumpReg: Gpr := Mips.Zero;
    var bssSign := 0;
    var consecutiveNops: nat := 0;
    var i := 0;
    assert reg[..] == Entrypoint.Initial.reg;
    while i < |words|
      invariant i <= |words|
      invariant Runnable(words[i..], consecutiveNops)
      invariant ProtoScan(words, Entrypoint.Initial, 0)
        == ProtoScan(words[i..], Entrypoint.Tracker(reg[..], branchReg, bssPtrReg, jumpReg, bssSign), consecutiveNops)
      decreases |words| - i
    {
      var word := words[i];
      assert words[i..][1..] == words[i + 1..];
      consecutiveNops := NextZeros(word, consecutiveNops);
      if consecutiveNops > 1 {
        break;
      }
      var instr := ProtoDisassemble(word);
      branchReg, bssPtrReg, jumpReg, bssSign := ProtoTrackStep(reg, instr, branchReg, bssPtrReg, jumpReg, bssSign);
      i := i + 1;
    }
    a := Entrypoint.Finish(Entrypoint.Tracker(reg[..], branchReg, bssPtrReg, jumpReg, bssSign));
  }

  // ---------------------------------------------------------------------------
  // The fixture

  /** `DATA`: the boot code `main` analyses. */
  const Data: seq<bv32> := [
    0x3C08_8004, 0x2508_E940, 0x2409_5D50, 0x2129_FFF8, 0xAD00_0000,
    0xAD00_0004, 0x1520_FFFC, 0x2108_0008, 0x3C0A_8002, 0x3C1D_8004,
    0x254A_5CC0, 0x0140_0008, 0x27BD_F330, 0x0000_0000, 0x0000_0000
  ]

  /** The decoded forms of the words of `DATA` before its two zero words. */
  const DataForms: seq<Form> := [
    IForm(Lui, 0, 8, 0x8004),
    IForm(Addiu, 8, 8, 0xE940),
    IForm(Addiu, 0, 9, 0x5D50),
    IForm(Addi, 9, 9, 0xFFF8),
    IForm(Sw, 8, 0, 0x0000),
    IForm(Sw, 8, 0, 0x0004),
    IForm(Bne, 9, 0, 0xFFFC),
    IForm(Addi, 8, 8, 0x0008),
    IForm(Lui, 0, 10, 0x8002),
    IForm(Lui, 0, 29, 0x8004),
    IForm(Addiu, 10, 10, 0x5CC0),
    SpecialForm(FuncJr, 10, 0, 0),
    IForm(Addiu, 29, 29, 0xF330)
  ]

  /** Word `k` of `DATA`, for each `k` before its two zero words, decoded. */
  lemma DataDecoded(k: nat)
    requires k < 13
    ensures Data[k] != 0 && Decodable(Data[k]) && ProtoDisassemble(Data[k]) == DataForms[k]
  {
    if k == 0 {} else if k == 1 {} else if k == 2 {} else if k == 3 {}
    else if k == 4 {} else if k == 5 {} else if k == 6 {} else if k == 7 {}
    else if k == 8 {} else if k == 9 {} else if k == 10 {} else if k == 11 {}
    else {}
  }

  /** A decodable non-zero word is tracked, and the loop goes on with the words after it. */
  lemma ScanSuffix(words: seq<bv32>, k: nat, s: Entrypoint.Tracker)
    requires k < |words| && words[k] != 0 && Decodable(words[k]) && Runnable(words[k + 1..], 0)
    ensures Runnable(words[k..], 0)
    ensures ProtoScan(words[k..], s, 0) == ProtoScan(words[k + 1..], ProtoTrack(s, ProtoDisassemble(words[k])), 0)
  {
    assert words[k..][1..] == words[k + 1..];
  }

  /**
   * The tracked state after each prefix of `DATA`: `t0` and `t1` get the
   * BSS start and size, `t2` the jump target, `sp` the stack pointer.
   */
  function DataState(k: nat): Entrypoint.Tracker
    requires k <= 13
  {
    if k == 0 then Entrypoint.Tracker(Entrypoint.Initial.reg, 0, 0, 0, 0)
    else if k == 1 then Entrypoint.Tracker(Entrypoint.Initial.reg[8 := 0x8004_0000], 0, 0, 0, 0)
    else if k == 2 then Entrypoint.Tracker(Entrypoint.Initial.reg[8 := 0x8005_E940], 0, 0, 0, 0)
    else if k == 3 then Entrypoint.Tracker(Entrypoint.Initial.reg[8 := 0x8005_E940][9 := 0x5D50], 0, 0, 0, 0)
    else if k == 4 then Entrypoint.Tracker(Entrypoint.Initial.reg[8 := 0x8005_E940][9 := 0x5D50], 0, 0, 0, -1)
    else if k == 5 then Entrypoint.Tracker(Entrypoint.Initial.reg[8 := 0x8005_E940][9 := 0x5D50], 0, 8, 0, -1)
    else if k == 6 then Entrypoint.Tracker(Entrypoint.Initial.reg[8 := 0x8005_E940][9 := 0x5D50], 0, 8, 0, -1)
    else if k == 7 then Entrypoint.Tracker(Entrypoint.Initial.reg[8 := 0x8005_E940][9 := 0x5D50], 9, 8, 0, -1)
    else if k == 8 then Entrypoint.Tracker(Entrypoint.Initial.reg[8 := 0x8005_E940][9 := 0x5D50], 9, 8, 0, 0)
    else if k == 9 then Entrypoint.Tracker(Entrypoint.Initial.reg[8 := 0x8005_E940][9 := 0x5D50][10 := 0x8002_0000], 9, 8, 0, 0)
    else if k == 10 then Entrypoint.Tracker(Entrypoint.Initial.reg[8 := 0x8005_E940][9 := 0x5D50][10 := 0x8002_0000][29 := 0x8004_0000], 9, 8, 0, 0)
    else if k == 11 then Entrypoint.Tracker(Entrypoint.Initial.reg[8 := 0x8005_E940][9 := 0x5D50][10 := 0x8002_5CC0][29 := 0x8004_0000], 9, 8, 0, 0)
    else if k == 12 then Entrypoint.Tracker(Entrypoint.Initial.reg[8 := 0x8005_E940][9 := 0x5D50][10 := 0x8002_5CC0][29 := 0x8004_0000], 9, 8, 10, 0)
    else Entrypoint.Tracker(Entrypoint.Initial.reg[8 := 0x8005_E940][9 := 0x5D50][10 := 0x8002_5CC0][29 := 0x8005_F330], 9, 8, 10, 0)
  }

  /** Word `k` of `DATA` takes the tracked state from `DataState(k)` to `DataState(k + 1)`. */
  lemma DataStep(k: nat)
    requires k < 13
    ensures ProtoTrack(DataState(k), DataForms[k]) == DataState(k + 1)
  {
    if k < 6 { DataStepLow(k); } else { DataStepHigh(k); }
  }

  /** `DataStep` for words 0 to 5. */
  lemma DataStepLow(k: nat)
    requires k < 6
    ensures ProtoTrack(DataState(k), DataForms[k]) == DataState(k + 1)
  {
    if k == 0 {} else if k == 1 {} else if k == 2 {} else if k == 3 {}
    else if k == 4 {} else {}
  }

  /** `DataStep` for words 6 to 12. */
  lemma DataStepHigh(k: nat)
    requires 6 <= k < 13
    ensures ProtoTrack(DataState(k), DataForms[k]) == DataState(k + 1)
  {
    if k == 6 {} else if k == 7 {} else if k == 8 {} else if k == 9 {}
    else if k == 10 {} else if k == 11 {} else {}
  }

  /** Two zero words end the loop before the second one is decoded. */
  lemma StopsAtTwoZeros(s: Entrypoint.Tracker)
    ensures Runnable([0, 0], 0) && ProtoScan([0, 0], s, 0) == s
  {
    assert [0 as bv32, 0][1..] == [0];
  }

  /** The loop of `main` over `DATA` from word `k` on. */
  lemma {:induction false} DataScanFrom(k: nat)
    requires k <= 13
    ensures Runnable(Data[k..], 0)
    ensures ProtoScan(Data[k..], DataState(k), 0) == DataState(13)
    decreases 13 - k
  {
    if k == 13 {
      assert Data[13..] == [0, 0];
      StopsAtTwoZeros(DataState(13));
    } else {
      DataScanFrom(k + 1);
      DataDecoded(k);
      ScanSuffix(Data, k, DataState(k));
      DataStep(k);
    }
  }

  /** `main` gets through `DATA`, stopping at its second zero word, with these results. */
  lemma DataResult()
    ensures Runnable(Data, 0)
    ensures Entrypoint.Finish(ProtoScan(Data, Entrypoint.Initial, 0))
      == Entrypoint.Analysis(0x8002_5CC0, 0x8005_E940, 0x5D50, 0x8005_F330)
  {
    DataScanFrom(0);
    assert Data[0..] == Data;
    assert DataState(0) == Entrypoint.Initial;
    DataFinish();
  }

  /** The results read off the final state of `DATA`. */
  lemma DataFinish()
    ensures Entrypoint.Finish(DataState(13)) == Entrypoint.Analysis(0x8002_5CC0, 0x8005_E940, 0x5D50, 0x8005_F330)
  {
    var s := DataState(13);
    assert s.reg[s.jumpReg] == 0x8002_5CC0 && s.reg[s.bssPtrReg] == 0x8005_E940;
    assert s.reg[s.branchReg] == 0x5D50 && s.reg[Mips.Sp] == 0x8005_F330;
  }

  /**
   * `main` on `DATA`: the code jumps to 0x80025CC0 with the stack pointer
   * at 0x8005F330; its BSS is 0x5D50 bytes at 0x8005E940, the one negative
   * and one positive `addi` cancelling out.
   */
  method AnalyseData() returns (a: Entrypoint.Analysis)
    ensures a == Entrypoint.Analysis(0x8002_5CC0, 0x8005_E940, 0x5D50, 0x8005_F330)
  {
    DataResult();
    a := RunPrototype(Data);
  }
}
