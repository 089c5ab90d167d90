/**
 * Properties of the entrypoint analyser: byte-order handling, where the
 * scan stops, which instruction decides each recorded register, and how the
 * tracked arithmetic relates to what the MIPS instructions compute.
 */
module EntrypointProofs {
  import opened Wrappers
  import opened Mips
  import opened N64Header
  import opened Uint
  import opened Entrypoint

  // ---------------------------------------------------------------------------
  // Byte order

  /** Reordering a word's bytes twice gives them back. */
  lemma StoredOrderInvolution(e: Endian, b: seq<bv8>)
    requires |b| == 4
    ensures StoredOrder(e, StoredOrder(e, b)) == b
  {
  }

  /** A word is determined by its four big-endian bytes. */
  lemma WordBytesInjective(a: bv32, b: bv32)
    requires WordBytes(a) == WordBytes(b)
    ensures a == b
  {
    WordBytesRoundTrip(a, WordBytes(a));
    WordBytesRoundTrip(b, WordBytes(b));
  }

  /** A word stored in any byte order is read back as that word. */
  lemma ReendReadsStoredWord(e: Endian, w: bv32)
    ensures BytesToReendWord(StoredOrder(e, WordBytes(w)), e) == w
  {
    var stored := StoredOrder(e, WordBytes(w));
    assert stored[..4] == stored;
    StoredOrderInvolution(e, WordBytes(w));
    WordBytesInjective(BytesToReendWord(stored, e), w);
  }

  /**
   * Reversing four bytes and reading them as `Bad`, or swapping each pair
   * and reading them as `Ugly`, gives the word the original bytes hold read
   * as `Good`.
   */
  lemma ReendAgreesWithGood(e: Endian, b: seq<bv8>)
    requires |b| == 4
    ensures BytesToReendWord(StoredOrder(e, b), e) == BytesToReendWord(b, Good)
  {
    var stored := StoredOrder(e, b);
    assert stored[..4] == stored;
    assert b[..4] == b;
    StoredOrderInvolution(e, b);
    WordBytesInjective(BytesToReendWord(stored, e), BytesToReendWord(b, Good));
  }

  /** Each byte order's magic bytes read, in that byte order, as the word 0x80371240. */
  lemma MagicReadsAsNativeWord(e: Endian)
    ensures BytesToReendWord(Magic(e), e) == 0x8037_1240
  {
    assert Magic(e) == StoredOrder(e, Magic(Good));
    ReendAgreesWithGood(e, Magic(Good));
    assert Magic(Good)[..4] == Magic(Good);
  }

  /** The image converted to native byte order, chunk by chunk; a trailing partial chunk is kept as is. */
  function ToBigEndian(data: seq<bv8>, e: Endian): (b: seq<bv8>)
    ensures |b| == |data|
    decreases |data|
  {
    if |data| < 4 then data else StoredOrder(e, data[..4]) + ToBigEndian(data[4..], e)
  }

  /** Reading an image in its byte order gives the words of its native-order conversion. */
  lemma {:induction false} WordsOfBigEndian(data: seq<bv8>, e: Endian)
    ensures Words(ToBigEndian(data, e), Good) == Words(data, e)
    decreases |data|
  {
    if |data| >= 4 {
      var b := ToBigEndian(data, e);
      var chunk := data[..4];
      assert b[..4] == StoredOrder(e, chunk);
      assert b[4..] == ToBigEndian(data[4..], e);
      WordsOfBigEndian(data[4..], e);
      ChunkInNativeOrder(e, chunk);
    }
  }

  /** A chunk reordered to native order reads, as `Good`, the word it held in its own order. */
  lemma ChunkInNativeOrder(e: Endian, chunk: seq<bv8>)
    requires |chunk| == 4
    ensures BytesToReendWord(StoredOrder(e, chunk), Good) == BytesToReendWord(chunk, e)
  {
    StoredOrderInvolution(e, chunk);
    ReendAgreesWithGood(e, StoredOrder(e, chunk));
    assert StoredOrder(e, chunk)[..4] == StoredOrder(e, chunk);
  }

  /** The analysis does not depend on the byte order beyond the per-word reordering. */
  lemma AnalyseAnyByteOrder(data: seq<bv8>, e: Endian)
    ensures Analyse(data, e) == Analyse(ToBigEndian(data, e), Good)
  {
    WordsOfBigEndian(data, e);
  }

  // ---------------------------------------------------------------------------
  // Where the scan stops

  /**
   * Once two consecutive zero words have been reached, nothing after them
   * matters: the scan stops before decoding the second one.
   */
  lemma {:induction false} StopsAtSecondZero(prefix: seq<bv32>, rest: seq<bv32>, s: Tracker, zeros: nat)
    requires |prefix| >= 2 && prefix[|prefix| - 2] == 0 && prefix[|prefix| - 1] == 0
    ensures Scan(prefix + rest, s, zeros) == Scan(prefix, s, zeros)
    decreases |prefix|
  {
    var all := prefix + rest;
    assert all[0] == prefix[0];
    assert all[1..] == prefix[1..] + rest;
    var word := prefix[0];
    var nops := if word == 0 then zeros + 1 else 0;
    if nops <= 1 && Disassemble(word).Ok? {
      var t := Track(s, Disassemble(word).value);
      if |prefix| == 2 {
        assert prefix == [0, 0];
        assert Disassemble(0) == Ok(Nop);
        assert (prefix + rest)[1..][0] == 0;
        assert Scan(prefix[1..] + rest, t, nops) == Ok(t);
        assert Scan(prefix[1..], t, nops) == Ok(t);
      } else {
        StopsAtSecondZero(prefix[1..], rest, t, nops);
      }
    }
  }

  /** Two zero words in a row end the scan with nothing changed. */
  lemma DoubleZeroStops(rest: seq<bv32>, s: Tracker)
    ensures Scan([0, 0] + rest, s, 0) == Ok(s)
  {
    assert Disassemble(0) == Ok(Nop);
    assert ([0, 0] + rest)[1..] == [0] + rest;
  }

  /** A single zero word is a `nop`: it changes nothing and only counts towards the stop. */
  lemma LoneZeroIsNop(rest: seq<bv32>, s: Tracker)
    ensures Scan([0] + rest, s, 0) == Scan(rest, s, 1)
  {
    assert Disassemble(0) == Ok(Nop);
    assert ([0] + rest)[1..] == rest;
  }

  /** An instruction the decoder does not know is skipped; it resets the zero count. */
  lemma UnknownIsSkipped(word: bv32, rest: seq<bv32>, s: Tracker, zeros: nat)
    requires Disassemble(word).Ok? && Disassemble(word).value.Unknown?
    ensures Scan([word] + rest, s, zeros) == Scan(rest, s, 0)
  {
    assert word != 0;
    assert ([word] + rest)[1..] == rest;
  }

  /** A word that decodes to an error aborts the analysis with that word. */
  lemma InvalidAborts(word: bv32, rest: seq<bv32>, s: Tracker, zeros: nat)
    requires Disassemble(word).Err?
    ensures Scan([word] + rest, s, zeros) == Err(word)
  {
    assert word != 0;
  }

  // ---------------------------------------------------------------------------
  // The scan as a fold over the decoded instructions

  /** Tracking a sequence of instructions in order. */
  function Fold(s: Tracker, instrs: seq<Instruction>): Tracker
    decreases |instrs|
  {
    if |instrs| == 0 then s else Fold(Track(s, instrs[0]), instrs[1..])
  }

  /** Tracking one more instruction after a sequence. */
  lemma {:induction false} FoldSnoc(s: Tracker, instrs: seq<Instruction>, i: Instruction)
    ensures Fold(s, instrs + [i]) == Track(Fold(s, instrs), i)
    decreases |instrs|
  {
    if |instrs| == 0 {
      assert (instrs + [i])[1..] == [];
    } else {
      assert (instrs + [i])[1..] == instrs[1..] + [i];
      FoldSnoc(Track(s, instrs[0]), instrs[1..], i);
    }
  }

  /** Every word decodes, and no two consecutive zero words (counting `zeros` as a zero before the first). */
  predicate Runs(words: seq<bv32>, zeros: nat)
  {
    && (forall k :: 0 <= k < |words| ==> Disassemble(words[k]).Ok?)
    && (|words| > 0 && words[0] == 0 ==> zeros == 0)
    && (forall k :: 0 < k < |words| && words[k] == 0 ==> words[k - 1] != 0)
  }

  /** The decoded instructions of words that all decode. */
  function Decoded(words: seq<bv32>): (instrs: seq<Instruction>)
    requires forall k :: 0 <= k < |words| ==> Disassemble(words[k]).Ok?
    ensures |instrs| == |words|
    ensures forall k :: 0 <= k < |words| ==> Ok(instrs[k]) == Disassemble(words[k])
    decreases |words|
  {
    if |words| == 0 then [] else [Disassemble(words[0]).value] + Decoded(words[1..])
  }

  /** A scan that neither stops nor aborts tracks every decoded instruction in order. */
  lemma {:induction false} ScanIsFold(words: seq<bv32>, s: Tracker, zeros: nat)
    requires zeros <= 1 && Runs(words, zeros)
    ensures Scan(words, s, zeros) == Ok(Fold(s, Decoded(words)))
    decreases |words|
  {
    if |words| > 0 {
      var word := words[0];
      var nops := if word == 0 then zeros + 1 else 0;
      assert nops <= 1;
      var instrs := Decoded(words);
      assert instrs[0] == Disassemble(word).value;
      assert instrs[1..] == Decoded(words[1..]);
      assert Runs(words[1..], nops) by {
        assert forall k :: 0 <= k < |words| - 1 ==> words[1..][k] == words[k + 1];
      }
      ScanIsFold(words[1..], Track(s, instrs[0]), nops);
    }
  }

  /** The register named by the last `jr`, or `default` when there is none. */
  function LastJumpReg(instrs: seq<Instruction>, default: Gpr): Gpr
    decreases |instrs|
  {
    if |instrs| == 0 then default
    else match instrs[|instrs| - 1]
      case Jr(rSrc) => rSrc
      case _ => LastJumpReg(instrs[..|instrs| - 1], default)
  }

  /** The first operand of the last `bne` or `bnez`, or `default` when there is none. */
  function LastBranchReg(instrs: seq<Instruction>, default: Gpr): Gpr
    decreases |instrs|
  {
    if |instrs| == 0 then default
    else match instrs[|instrs| - 1]
      case Bne(rCmpL, _, _) => rCmpL
      case Bnez(rCmp, _) => rCmp
      case _ => LastBranchReg(instrs[..|instrs| - 1], default)
  }

  /** The base register of the last `sw`, or `default` when there is none. */
  function LastBssPtrReg(instrs: seq<Instruction>, default: Gpr): Gpr
    decreases |instrs|
  {
    if |instrs| == 0 then default
    else match instrs[|instrs| - 1]
      case Sw(rBase, _, _) => rBase
      case _ => LastBssPtrReg(instrs[..|instrs| - 1], default)
  }

  /** How many `addi` instructions have an immediate with bit 15 set (`negative`) or clear. */
  function AddiCount(instrs: seq<Instruction>, negative: bool): nat
    decreases |instrs|
  {
    if |instrs| == 0 then 0
    else
      var here := match instrs[|instrs| - 1]
        case Addi(_, _, imm) => if (imm >= 0x8000) == negative then 1 else 0
        case _ => 0;
      AddiCount(instrs[..|instrs| - 1], negative) + here
  }

  /**
   * Last writer wins: each recorded register is the one named by the last
   * instruction of its kind, or its starting value when there is none.
   */
  lemma {:induction false} FoldRecords(s: Tracker, instrs: seq<Instruction>)
    ensures Fold(s, instrs).jumpReg == LastJumpReg(instrs, s.jumpReg)
    ensures Fold(s, instrs).branchReg == LastBranchReg(instrs, s.branchReg)
    ensures Fold(s, instrs).bssPtrReg == LastBssPtrReg(instrs, s.bssPtrReg)
    decreases |instrs|
  {
    if |instrs| > 0 {
      var init := instrs[..|instrs| - 1];
      var last := instrs[|instrs| - 1];
      assert instrs == init + [last];
      FoldSnoc(s, init, last);
      FoldRecords(s, init);
    }
  }

  /** The balance one instruction adds: +1 for a non-negative `addi` immediate, -1 for a negative one. */
  lemma TrackSign(s: Tracker, init: seq<Instruction>, last: Instruction)
    ensures Track(s, last).bssSign - s.bssSign
      == (AddiCount(init + [last], false) - AddiCount(init, false))
       - (AddiCount(init + [last], true) - AddiCount(init, true))
  {
    AddiCountSnoc(init, last, false);
    AddiCountSnoc(init, last, true);
    if last.Addi? {
      if last.imm >= 0x8000 {
        assert Track(s, last).bssSign == s.bssSign - 1;
      } else {
        assert Track(s, last).bssSign == s.bssSign + 1;
      }
    } else {
      assert Track(s, last).bssSign == s.bssSign;
    }
  }

  /** Counting one more instruction. */
  lemma AddiCountSnoc(init: seq<Instruction>, last: Instruction, negative: bool)
    ensures AddiCount(init + [last], negative) == AddiCount(init, negative)
      + (if last.Addi? && (last.imm >= 0x8000) == negative then 1 else 0)
  {
    assert (init + [last])[..|init|] == init;
  }

  /** The `addi` balance counts the non-negative immediates up and the negative ones down. */
  lemma {:induction false} FoldBalance(s: Tracker, instrs: seq<Instruction>)
    ensures Fold(s, instrs).bssSign == s.bssSign + AddiCount(instrs, false) - AddiCount(instrs, true)
    decreases |instrs|
  {
    if |instrs| > 0 {
      var init := instrs[..|instrs| - 1];
      var last := instrs[|instrs| - 1];
      assert instrs == init + [last];
      FoldSnoc(s, init, last);
      FoldBalance(s, init);
      TrackSign(Fold(s, init), init, last);
    }
  }

  /** Only `lui`, `addiu` and `ori` change the register file. */
  lemma TrackKeepsRegisters(s: Tracker, i: Instruction)
    requires Dest(i).None?
    ensures Track(s, i).reg == s.reg
  {
  }

  /** An instruction leaves every register it does not write as it was. */
  lemma TrackFrame(s: Tracker, i: Instruction, r: Gpr)
    requires Dest(i) != Some(r)
    ensures Track(s, i).reg[r] == s.reg[r]
  {
    if Dest(i).None? {
      TrackKeepsRegisters(s, i);
    } else {
      var rDest := Dest(i).value;
      assert rDest != r;
      var v: U32 :| Track(s, i).reg == s.reg[rDest := v];
    }
  }

  /** A register no `lui`, `addiu` or `ori` writes keeps its value. */
  lemma {:induction false} FoldFrame(s: Tracker, instrs: seq<Instruction>, r: Gpr)
    requires forall k :: 0 <= k < |instrs| ==> Dest(instrs[k]) != Some(r)
    ensures Fold(s, instrs).reg[r] == s.reg[r]
    decreases |instrs|
  {
    if |instrs| > 0 {
      TrackFrame(s, instrs[0], r);
      assert forall k :: 0 <= k < |instrs| - 1 ==> instrs[1..][k] == instrs[k + 1];
      FoldFrame(Track(s, instrs[0]), instrs[1..], r);
    }
  }

  /**
   * The results read off the state after tracking `instrs` from the start:
   * the value of the last `jr` source, of the last `bne`/`bnez` operand and
   * of the last `sw` base, each `zero` when there is none, and `sp`. The BSS
   * start is the pointer register's value unless negative `addi` immediates
   * outnumber the others, and then the start plus the size is that value.
   */
  predicate ReadsLastWriters(instrs: seq<Instruction>, a: Analysis)
  {
    var final := Fold(Initial, instrs);
    && a.jumpAddr == final.reg[LastJumpReg(instrs, Zero)]
    && a.bssSize == final.reg[LastBranchReg(instrs, Zero)]
    && (AddiCount(instrs, true) <= AddiCount(instrs, false) ==>
          a.bssStart == final.reg[LastBssPtrReg(instrs, Zero)])
    && (AddiCount(instrs, true) > AddiCount(instrs, false) ==>
          (a.bssStart as int + a.bssSize as int) % Modulus == final.reg[LastBssPtrReg(instrs, Zero)] as int)
    && a.initialSp == final.reg[Sp]
  }

  /** `Finish` reads the last writers off the tracked state. */
  lemma FinishOfFold(instrs: seq<Instruction>)
    ensures ReadsLastWriters(instrs, Finish(Fold(Initial, instrs)))
  {
    FoldRecords(Initial, instrs);
    FoldBalance(Initial, instrs);
  }

  /**
   * For boot code that runs to its end without an invalid word or a double
   * zero, the analysis is `Finish` of tracking every decoded word.
   */
  lemma AnalyseOfRun(data: seq<bv8>, e: Endian)
    requires Runs(Words(data, e), 0)
    ensures
      var instrs := Decoded(Words(data, e));
      var final := Fold(Initial, instrs);
      && Analyse(data, e) == Ok(Finish(final))
      && ReadsLastWriters(instrs, Finish(final))
  {
    ScanIsFold(Words(data, e), Initial, 0);
    FinishOfFold(Decoded(Words(data, e)));
  }

  /** A second zero word after words that run ends the scan where the first one left it. */
  lemma {:induction false} DropSecondZero(p: seq<bv32>, s: Tracker, zeros: nat)
    requires zeros <= 1 && Runs(p + [0], zeros)
    ensures Scan(p + [0, 0], s, zeros) == Scan(p + [0], s, zeros)
    decreases |p|
  {
    assert Disassemble(0) == Ok(Nop);
    if |p| == 0 {
      assert (p + [0])[0] == 0;
      assert p + [0, 0] == [0, 0] && p + [0] == [0];
      assert [0 as bv32, 0][1..] == [0];
      assert [0 as bv32][1..] == [];
    } else {
      var word := p[0];
      var nops := if word == 0 then zeros + 1 else 0;
      assert (p + [0])[0] == word;
      if |p| == 1 {
        assert (p + [0])[1] == 0;
      } else {
        assert (p + [0])[1] == p[1];
      }
      assert nops <= 1;
      assert (p + [0, 0])[1..] == p[1..] + [0, 0];
      assert (p + [0])[1..] == p[1..] + [0];
      assert Runs(p[1..] + [0], nops) by {
        assert forall k :: 0 <= k < |p| ==> (p[1..] + [0])[k] == (p + [0])[k + 1];
      }
      DropSecondZero(p[1..], Track(s, Disassemble(word).value), nops);
    }
  }

  /**
   * For boot code that reaches two consecutive zero words without an
   * invalid word before them, the analysis is `Finish` of tracking every
   * decoded word up to the first of the two; what follows is never read.
   */
  lemma AnalyseOfStoppedRun(data: seq<bv8>, e: Endian, p: seq<bv32>, rest: seq<bv32>)
    requires Words(data, e) == p + [0, 0] + rest && Runs(p + [0], 0)
    ensures
      var instrs := Decoded(p + [0]);
      var final := Fold(Initial, instrs);
      && Analyse(data, e) == Ok(Finish(final))
      && ReadsLastWriters(instrs, Finish(final))
  {
    var stopped := p + [0, 0];
    assert stopped[|stopped| - 2] == 0 && stopped[|stopped| - 1] == 0;
    StopsAtSecondZero(stopped, rest, Initial, 0);
    DropSecondZero(p, Initial, 0);
    ScanIsFold(p + [0], Initial, 0);
    FinishOfFold(Decoded(p + [0]));
  }

  /** After words that run, the first word that decodes to an error aborts the scan with that word. */
  lemma {:induction false} ScanAbortsAtFirstInvalid(p: seq<bv32>, w: bv32, rest: seq<bv32>, s: Tracker, zeros: nat)
    requires zeros <= 1 && Runs(p, zeros) && Disassemble(w).Err?
    ensures Scan(p + [w] + rest, s, zeros) == Err(w)
    decreases |p|
  {
    if |p| == 0 {
      assert p + [w] + rest == [w] + rest;
      InvalidAborts(w, rest, s, zeros);
    } else {
      var word := p[0];
      var nops := if word == 0 then zeros + 1 else 0;
      assert nops <= 1;
      assert (p + [w] + rest)[0] == word;
      assert (p + [w] + rest)[1..] == p[1..] + [w] + rest;
      assert Runs(p[1..], nops) by {
        assert forall k :: 0 <= k < |p| - 1 ==> p[1..][k] == p[k + 1];
      }
      ScanAbortsAtFirstInvalid(p[1..], w, rest, Track(s, Disassemble(word).value), nops);
    }
  }

  /**
   * For boot code whose words run up to one that decodes to an error,
   * `parse` fails with that word, whatever follows it.
   */
  lemma AnalyseOfAbortedRun(data: seq<bv8>, e: Endian, p: seq<bv32>, w: bv32, rest: seq<bv32>)
    requires Words(data, e) == p + [w] + rest && Runs(p, 0) && Disassemble(w).Err?
    ensures Analyse(data, e) == Err(w)
  {
    ScanAbortsAtFirstInvalid(p, w, rest, Initial, 0);
  }

  // ---------------------------------------------------------------------------
  // The tracked arithmetic

  /** `lui` loads the immediate into the upper half and clears the lower half. */
  lemma LuiLoadsUpperHalf(imm: bv32)
    requires imm < 0x1_0000
    ensures LuiValue(imm) as int / 0x1_0000 == imm as int
    ensures LuiValue(imm) as int % 0x1_0000 == 0
  {
    assert imm as int < 0x1_0000;
  }

  /** The MIPS value of the 16-bit immediate: sign-extended. */
  function SignExtend16(imm: bv32): int
  {
    if imm & 0x8000 != 0 then imm as int - 0x1_0000 else imm as int
  }

  /** What `addiu` computes on the processor: the source plus the sign-extended immediate, wrapping. */
  function MipsAddiu(src: U32, imm: bv32): U32
  {
    Wrap(src as int + SignExtend16(imm))
  }

  /** Wrapping twice is wrapping once. */
  lemma WrapAdd(x: int, y: int)
    ensures Wrap(Wrap(x) as int + y) == Wrap(x + y)
  {
    var q := (x - Wrap(x) as int) / Modulus;
    assert x - Wrap(x) as int == q * Modulus;
    assert (Wrap(x) as int + y) % Modulus == (x + y - q * Modulus) % Modulus;
    ModuloShift(x + y, -q);
  }

  /** Adding a multiple of the modulus does not change the remainder. */
  lemma {:induction false} ModuloShift(x: int, q: int)
    ensures (x + q * Modulus) % Modulus == x % Modulus
    decreases if q < 0 then -q else q
  {
    if q > 0 {
      ModuloShift(x, q - 1);
      assert x + q * Modulus == (x + (q - 1) * Modulus) + Modulus;
    } else if q < 0 {
      ModuloShift(x, q + 1);
      assert x + q * Modulus == (x + (q + 1) * Modulus) - Modulus;
    }
  }

  /**
   * The tracker's `addiu` agrees with the processor's when bit 15 of the
   * immediate is clear, and is 0x20000 higher (modulo 2^32) when it is set:
   * it adds 0x10000 where the processor subtracts it.
   */
  lemma AddiuQuirk(src: U32, imm: bv32)
    ensures imm & 0x8000 == 0 ==> AddiuValue(src, imm) == MipsAddiu(src, imm)
    ensures imm & 0x8000 != 0 ==> AddiuValue(src, imm) == Wrap(MipsAddiu(src, imm) as int + 0x2_0000)
  {
    if imm & 0x8000 != 0 {
      var x := src as int + imm as int - 0x1_0000;
      assert SignExtend16(imm) == imm as int - 0x1_0000;
      assert MipsAddiu(src, imm) == Wrap(x);
      assert Bit15Doubled(imm) == 0x1_0000;
      assert AddiuValue(src, imm) == Wrap(x + 0x2_0000);
      WrapAdd(x, 0x2_0000);
    } else {
      assert Bit15Doubled(imm) == 0 && SignExtend16(imm) == imm as int;
    }
  }

  /**
   * The tracker's `ori` is `+`; it agrees with the bitwise OR whenever the
   * source's lower half is clear: the upper half is the source's and the
   * lower half is the immediate.
   */
  lemma OriIsOrOnClearLowHalf(src: U32, imm: bv32)
    requires src as int % 0x1_0000 == 0 && imm < 0x1_0000
    ensures OriValue(src, imm) as int / 0x1_0000 == src as int / 0x1_0000
    ensures OriValue(src, imm) as int % 0x1_0000 == imm as int
  {
    var q := src as int / 0x1_0000;
    DivModOfSum(q, 0);
    assert src as int == q * 0x1_0000;
    assert q < 0x1_0000;
    var sum := q * 0x1_0000 + imm as int;
    assert 0 <= sum < Modulus;
    assert OriValue(src, imm) as int == sum;
    DivModOfSum(q, imm as int);
  }

  /** The quotient and remainder by 0x10000 of `q * 0x10000 + r` for a remainder in range. */
  lemma DivModOfSum(q: int, r: int)
    requires 0 <= r < 0x1_0000
    ensures (q * 0x1_0000 + r) / 0x1_0000 == q
    ensures (q * 0x1_0000 + r) % 0x1_0000 == r
  {
  }
}
