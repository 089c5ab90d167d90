/**
 * Properties of the prototype analyser in module Prototype: its decoder
 * against the MIPS encoding and against the main decoder, and its loop
 * against `parse`.
 */
module PrototypeProofs {
  import opened Wrappers
  import opened Prototype
  import Mips
  import MipsProofs
  import N64Header
  import Entrypoint
  import EntrypointProofs

  // ---------------------------------------------------------------------------
  // What the decoder accepts

  /** Function code 0x28 is read as `jr`: `0x01400028` decodes as `jr t2`, like `0x01400008`. */
  lemma FiveBitFunctionCode()
    ensures Decodable(0x0140_0028) && Decodable(0x0140_0008)
    ensures ProtoDisassemble(0x0140_0028) == ProtoDisassemble(0x0140_0008)
      == SpecialForm(FuncJr, Mips.T2, Mips.Zero, Mips.Zero)
  {
  }

  /**
   * Which words panic: opcodes outside the eight, `ori`, `beq` and
   * `regimm` among them; special words with another function code or with
   * a bit of 20..6 set; `lui` with a source register.
   */
  lemma PanicsExactly(word: bv32)
    ensures !Decodable(word) <==>
      || word >> 26 !in {0x00, 0x02, 0x03, 0x05, 0x08, 0x09, 0x0F, 0x2B}
      || (word >> 26 == 0x00 && word != 0 && (word & 0x1F != 0x08 || word & 0x001F_FFC0 != 0))
      || (word >> 26 == 0x0F && word & 0x03E0_0000 != 0)
  {
  }

  // ---------------------------------------------------------------------------
  // Agreement with the main decoder

  /** The instruction of the main decoder that a prototype form stands for. */
  function Lift(f: Form): Mips.Instruction
    requires WellFormed(f)
  {
    match f
    case SpecialForm(FuncNop, _, _, _) => Mips.Nop
    case SpecialForm(FuncJr, rs, _, _) => Mips.Jr(rs)
    case JForm(J, addr) => Mips.J(addr)
    case JForm(_, addr) => Mips.Jal(addr)
    case IForm(Bne, rs, rt, imm) => if rt == Mips.Zero then Mips.Bnez(rs, imm) else Mips.Bne(rs, rt, imm)
    case IForm(Addi, rs, rt, imm) => Mips.Addi(rs, rt, imm)
    case IForm(Addiu, rs, rt, imm) => Mips.Addiu(rs, rt, imm)
    case IForm(Lui, _, rt, imm) => Mips.Lui(rt, imm)
    case IForm(_, rs, rt, imm) => Mips.Sw(rs, rt, imm)
  }

  /** The zero word and `jr`: `nop` and `jr` in both decoders. */
  lemma SpecialAgrees(word: bv32)
    requires Decodable(word) && word >> 26 == 0x00
    ensures Mips.Disassemble(word) == Ok(Lift(ProtoDisassemble(word)))
  {
    if word != 0 {
      MipsProofs.DecodeJr(word);
      assert word & 0x001F_7C00 == 0;
      assert Mips.RegisterField(word, 21) == Mips.GprFromIndex(word >> 21).value;
    }
  }

  /** `j` and `jal`: the same byte address in both decoders. */
  lemma JumpAgrees(word: bv32, op: Mips.CpuOp)
    requires Decodable(word) && word >> 26 == Mips.OpCode(op) && (op == Mips.Jump || op == Mips.JumpAndLink)
    ensures Mips.Disassemble(word) == Ok(Lift(ProtoDisassemble(word)))
  {
    MipsProofs.JumpDispatch(word, op);
  }

  /** `bne`: the same fields in both decoders, with `bnez` when the second register is `zero`. */
  lemma BneAgrees(word: bv32)
    requires Decodable(word) && word >> 26 == 0x05
    ensures Mips.Disassemble(word) == Ok(Lift(ProtoDisassemble(word)))
  {
    MipsProofs.ImmediateDispatch(word, Mips.BranchNotEqual);
  }

  /** `addi`: the same fields in both decoders. */
  lemma AddiAgrees(word: bv32)
    requires Decodable(word) && word >> 26 == 0x08
    ensures Mips.Disassemble(word) == Ok(Lift(ProtoDisassemble(word)))
  {
    MipsProofs.ImmediateDispatch(word, Mips.AddImmediate);
  }

  /** `addiu`: the same fields in both decoders. */
  lemma AddiuAgrees(word: bv32)
    requires Decodable(word) && word >> 26 == 0x09
    ensures Mips.Disassemble(word) == Ok(Lift(ProtoDisassemble(word)))
  {
    MipsProofs.ImmediateDispatch(word, Mips.AddImmediateUnsigned);
  }

  /** `lui`: the same fields in both decoders, the source field being zero. */
  lemma LuiAgrees(word: bv32)
    requires Decodable(word) && word >> 26 == 0x0F
    ensures Mips.Disassemble(word) == Ok(Lift(ProtoDisassemble(word)))
  {
    MipsProofs.ImmediateDispatch(word, Mips.LoadUpperImmediate);
    assert Mips.RegisterField(word, 21) == Mips.Zero;
  }

  /** `sw`: the same fields in both decoders. */
  lemma SwAgrees(word: bv32)
    requires Decodable(word) && word >> 26 == 0x2B
    ensures Mips.Disassemble(word) == Ok(Lift(ProtoDisassemble(word)))
  {
    MipsProofs.ImmediateDispatch(word, Mips.StoreWord);
  }

  /**
   * Every word the prototype decodes, the main decoder decodes without
   * error to the same instruction (with `bne` against `zero` as `bnez`).
   */
  lemma DecodersAgree(word: bv32)
    requires Decodable(word)
    ensures Mips.Disassemble(word) == Ok(Lift(ProtoDisassemble(word)))
  {
    var code := word >> 26;
    if code == 0x00 {
      SpecialAgrees(word);
    } else if code == 0x02 {
      JumpAgrees(word, Mips.Jump);
    } else if code == 0x03 {
      JumpAgrees(word, Mips.JumpAndLink);
    } else if code == 0x05 {
      BneAgrees(word);
    } else if code == 0x08 {
      AddiAgrees(word);
    } else if code == 0x09 {
      AddiuAgrees(word);
    } else if code == 0x0F {
      LuiAgrees(word);
    } else {
      SwAgrees(word);
    }
  }

  /** `is_branch` of the prototype is the delay-slot test of the main decoder. */
  lemma BranchAgrees(word: bv32)
    requires Decodable(word)
    ensures Mips.Disassemble(word).Ok?
    ensures ProtoIsBranch(ProtoDisassemble(word)) <==> Mips.HasDelaySlot(Mips.Disassemble(word).value)
  {
    DecodersAgree(word);
    BranchLift(ProtoDisassemble(word));
  }

  /** A form is a branch for the prototype exactly when the instruction it stands for has a delay slot. */
  lemma BranchLift(f: Form)
    requires WellFormed(f)
    ensures ProtoIsBranch(f) <==> Mips.HasDelaySlot(Lift(f))
  {
    if f.IForm? {
      assert ProtoIsBranch(f) <==> f.op == Bne;
    }
  }

  /** The prototype's tracking step on a form is the one of `parse` on the instruction it stands for. */
  lemma TrackLift(s: Entrypoint.Tracker, f: Form)
    requires WellFormed(f)
    ensures ProtoTrack(s, f) == Entrypoint.Track(s, Lift(f))
  {
    if f.IForm? {
      TrackLiftImmediate(s, f);
    } else if f.SpecialForm? && f.func == FuncJr {
      assert Lift(f) == Mips.Jr(f.rs);
    }
  }

  /** `TrackLift` for the immediate forms. */
  lemma TrackLiftImmediate(s: Entrypoint.Tracker, f: Form)
    requires WellFormed(f) && f.IForm?
    ensures ProtoTrack(s, f) == Entrypoint.Track(s, Lift(f))
  {
    if f.op == Bne {
      assert ProtoTrack(s, f) == s.(branchReg := f.rs);
    } else if f.op == Addi {
      assert Lift(f) == Mips.Addi(f.rs, f.rt, f.imm);
    } else if f.op == Addiu {
      assert Lift(f) == Mips.Addiu(f.rs, f.rt, f.imm);
    } else if f.op == Lui {
      assert Lift(f) == Mips.Lui(f.rt, f.imm);
    } else {
      assert Lift(f) == Mips.Sw(f.rs, f.rt, f.imm);
    }
  }

  /** On a decoded word, the prototype's tracking step is the one of `parse`. */
  lemma TrackAgrees(s: Entrypoint.Tracker, word: bv32)
    requires Decodable(word)
    ensures Mips.Disassemble(word).Ok?
    ensures ProtoTrack(s, ProtoDisassemble(word)) == Entrypoint.Track(s, Mips.Disassemble(word).value)
  {
    DecodersAgree(word);
    TrackLift(s, ProtoDisassemble(word));
  }

  /** On the words it gets through, the loop of `main` computes what the scan of `parse` does. */
  lemma {:induction false} ProtoScanAgrees(words: seq<bv32>, s: Entrypoint.Tracker, zeros: nat)
    requires Runnable(words, zeros)
    ensures Entrypoint.Scan(words, s, zeros) == Ok(ProtoScan(words, s, zeros))
    decreases |words|
  {
    if |words| > 0 && NextZeros(words[0], zeros) <= 1 {
      TrackAgrees(s, words[0]);
      ProtoScanAgrees(words[1..], ProtoTrack(s, ProtoDisassemble(words[0])), NextZeros(words[0], zeros));
    }
  }

  // ---------------------------------------------------------------------------
  // The fixture through `parse`

  /** The big-endian bytes of a word list. */
  function WordListBytes(ws: seq<bv32>): (b: seq<bv8>)
    ensures |b| == 4 * |ws|
  {
    if |ws| == 0 then [] else N64Header.WordBytes(ws[0]) + WordListBytes(ws[1..])
  }

  /** Reading the big-endian bytes of a word list gives the words back. */
  lemma {:induction false} WordsOfWordListBytes(ws: seq<bv32>)
    ensures Entrypoint.Words(WordListBytes(ws), N64Header.Good) == ws
  {
    if |ws| > 0 {
      var b := WordListBytes(ws);
      assert b[..4] == N64Header.WordBytes(ws[0]);
      assert b[4..] == WordListBytes(ws[1..]);
      WordsOfWordListBytes(ws[1..]);
      assert b[..4][..4] == b[..4];
      EntrypointProofs.WordBytesInjective(Entrypoint.BytesToReendWord(b[..4], N64Header.Good), ws[0]);
    }
  }

  /** `parse` on `DATA` stored as a big-endian image finds what `main` prints. */
  lemma DataThroughParse()
    ensures Entrypoint.Analyse(WordListBytes(Data), N64Header.Good)
      == Ok(Entrypoint.Analysis(0x8002_5CC0, 0x8005_E940, 0x5D50, 0x8005_F330))
  {
    DataResult();
    WordsOfWordListBytes(Data);
    ProtoScanAgrees(Data, Entrypoint.Initial, 0);
  }
}
