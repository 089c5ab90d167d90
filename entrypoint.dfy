/**
 * The entrypoint analyser (src/n64header/entrypoint.rs): it reads the boot
 * code word by word in the image's byte order, decodes each word, and
 * tracks a handful of register values to find where the game jumps, where
 * its BSS section starts, how large it is, and the initial stack pointer.
 */
module Entrypoint {
  import opened Wrappers
  import opened Mips
  import opened N64Header
  import opened Uint

  // ---------------------------------------------------------------------------
  // Words in the image's byte order

  /**
   * The order in which an image stored as `e` holds the four big-endian
   * bytes of a word: as they are, reversed, or with each pair swapped.
   */
  function StoredOrder(e: Endian, b: seq<bv8>): (s: seq<bv8>)
    requires |b| == 4
    ensures |s| == 4
  {
    match e
    case Good => b
    case Bad => [b[3], b[2], b[1], b[0]]
    case Ugly => [b[1], b[0], b[3], b[2]]
  }

  /**
   * `bytes_to_reend_word`: the word held by a chunk of an image stored as
   * `endian`. The source asserts at least four bytes; its `Good` and `Bad`
   * arms also need exactly four, while `Ugly` only looks at the first four.
   */
  function BytesToReendWord(bytes: seq<bv8>, endian: Endian): (w: bv32)
    requires |bytes| >= 4 && (endian.Ugly? || |bytes| == 4)
    ensures WordBytes(w) == StoredOrder(endian, bytes[..4])
  {
    WordBytesRoundTrip(0, StoredOrder(endian, bytes[..4]));
    match endian
    case Good => BigEndianWord(bytes)                                      // from_be_bytes
    case Bad => BigEndianWord([bytes[3], bytes[2], bytes[1], bytes[0]])    // from_le_bytes
    case Ugly => BigEndianWord([bytes[1], bytes[0], bytes[3], bytes[2]])
  }

  /**
   * The words of `data` in order, one per complete 4-byte chunk; trailing
   * bytes that do not fill a chunk are ignored (`chunks_exact(4)`).
   */
  function Words(data: seq<bv8>, endian: Endian): (ws: seq<bv32>)
    ensures |ws| == |data| / 4
    ensures forall k :: 0 <= k < |ws| ==> ws[k] == BytesToReendWord(data[4 * k..4 * k + 4], endian)
    decreases |data|
  {
    if |data| < 4 then []
    else
      ChunksAfterFirst(data);
      [BytesToReendWord(data[..4], endian)] + Words(data[4..], endian)
  }

  /** Chunk `k` of `data[4..]` is chunk `k + 1` of `data`. */
  lemma ChunksAfterFirst(data: seq<bv8>)
    requires |data| >= 4
    ensures forall k :: 0 <= k < (|data| - 4) / 4 ==> data[4..][4 * k..4 * k + 4] == data[4 * (k + 1)..4 * (k + 1) + 4]
  {
  }

  // ---------------------------------------------------------------------------
  // Register tracking

  /** The tracked value of each of the 32 general-purpose registers. */
  type RegFile = s: seq<U32> | |s| == 32 witness seq(32, _ => 0)

  /**
   * The state of the analysis: the register file, the registers last named
   * by a `bne`/`bnez`, a `sw` base and a `jr`, and the balance of positive
   * over negative `addi` immediates.
   */
  datatype Tracker = Tracker(reg: RegFile, branchReg: Gpr, bssPtrReg: Gpr, jumpReg: Gpr, bssSign: int)

  /** Every register 0 and every recorded register `zero`. */
  const Initial: Tracker := Tracker(
    [
      0, 0, 0, 0, 0, 0, 0, 0,
      0, 0, 0, 0, 0, 0, 0, 0,
      0, 0, 0, 0, 0, 0, 0, 0,
      0, 0, 0, 0, 0, 0, 0, 0
    ],
    Zero, Zero, Zero, 0)

  /** The register an instruction writes in the tracked register file, if any. */
  function Dest(i: Instruction): Option<Gpr>
  {
    match i
    case Lui(rDest, _) => Some(rDest)
    case Addiu(_, rDest, _) => Some(rDest)
    case Ori(_, rDest, _) => Some(rDest)
    case _ => None
  }

  /** `(imm & 0x8000) << 1`: 0x10000 when bit 15 of the immediate is set. */
  function Bit15Doubled(imm: bv32): int
  {
    if imm & 0x8000 != 0 then 0x1_0000 else 0
  }

  /** The value `lui` loads: `imm << 16`. */
  function LuiValue(imm: bv32): U32
  {
    Wrap(imm as int * 0x1_0000)
  }

  /** The value the tracker gives `addiu`: `src + imm + ((imm & 0x8000) << 1)`. */
  function AddiuValue(src: U32, imm: bv32): U32
  {
    Wrap(src as int + imm as int + Bit15Doubled(imm))
  }

  /** The value the tracker gives `ori`: `src + imm`. */
  function OriValue(src: U32, imm: bv32): U32
  {
    Wrap(src as int + imm as int)
  }

  /**
   * One step of the tracking: the effect of a decoded instruction. The
   * arithmetic is `u32` arithmetic, wrapping on overflow. Its properties
   * are the lemmas `TrackFrame`, `FoldRecords`, `FoldBalance` and the
   * arithmetic lemmas of module EntrypointProofs.
   */
  function Track(s: Tracker, i: Instruction): Tracker
  {
    match i
    case Lui(rDest, imm) => s.(reg := s.reg[rDest := LuiValue(imm)])
    case Addiu(rSrc, rDest, imm) => s.(reg := s.reg[rDest := AddiuValue(s.reg[rSrc], imm)])
    case Ori(rSrc, rDest, imm) => s.(reg := s.reg[rDest := OriValue(s.reg[rSrc], imm)])
    case Addi(_, _, imm) => s.(bssSign := if imm >= 0x8000 then s.bssSign - 1 else s.bssSign + 1)
    case Bne(rCmpL, _, _) => s.(branchReg := rCmpL)
    case Bnez(rCmp, _) => s.(branchReg := rCmp)
    case Jr(rSrc) => s.(jumpReg := rSrc)
    case Sw(rBase, _, _) => s.(bssPtrReg := rBase)
    case _ => s
  }

  /**
   * The loop over the words: `zeros` counts the zero words just seen; the
   * second of two consecutive zero words ends the scan before it is
   * decoded, and a word that decodes to an error aborts with that word.
   */
  function Scan(words: seq<bv32>, s: Tracker, zeros: nat): (r: Result<Tracker, bv32>)
    ensures r.Err? ==> r.error in words && Disassemble(r.error).Err?
    decreases |words|
  {
    if |words| == 0 then Ok(s)
    else
      var word := words[0];
      var nops := if word == 0 then zeros + 1 else 0;
      if nops > 1 then Ok(s)
      else
        match Disassemble(word)
        case Err(_) => Err(word)
        case Ok(instr) => Scan(words[1..], Track(s, instr), nops)
  }

  /** The four results of the analysis. */
  datatype Analysis = Analysis(jumpAddr: U32, bssStart: U32, bssSize: U32, initialSp: U32)

  /**
   * The results read off the final state: the jump target, the BSS size and
   * the BSS start are the values of the recorded registers, the start moved
   * down by the size when the `addi` balance is negative; the stack pointer
   * is `sp`'s value.
   */
  function Finish(s: Tracker): (a: Analysis)
    ensures a.jumpAddr == s.reg[s.jumpReg] && a.bssSize == s.reg[s.branchReg]
    ensures s.bssSign >= 0 ==> a.bssStart == s.reg[s.bssPtrReg]
    ensures s.bssSign < 0 ==> (a.bssStart as int + a.bssSize as int) % Modulus == s.reg[s.bssPtrReg] as int
    ensures a.initialSp == s.reg[Sp]
  {
    var size := s.reg[s.branchReg];
    var start := s.reg[s.bssPtrReg];
    Analysis(s.reg[s.jumpReg], if s.bssSign < 0 then Wrap(start as int - size as int) else start, size, s.reg[Sp])
  }

  /** What `parse` computes for an image, or the word it panics on. */
  function Analyse(data: seq<bv8>, endian: Endian): (r: Result<Analysis, bv32>)
    ensures r.Err? ==> r.error in Words(data, endian) && Disassemble(r.error).Err?
  {
    match Scan(Words(data, endian), Initial, 0)
    case Err(word) => Err(word)
    case Ok(s) => Ok(Finish(s))
  }

  /** The words of `data[pos..]`: the chunk at `pos` followed by those after it. */
  lemma WordsFrom(data: seq<bv8>, pos: nat, endian: Endian)
    requires pos + 4 <= |data|
    ensures Words(data[pos..], endian) == [BytesToReendWord(data[pos..pos + 4], endian)] + Words(data[pos + 4..], endian)
  {
    assert data[pos..][..4] == data[pos..pos + 4];
    assert data[pos..][4..] == data[pos + 4..];
  }

  /** One step of `Scan` over a word that is decoded and tracked. */
  lemma ScanStep(word: bv32, rest: seq<bv32>, s: Tracker, zeros: nat)
    requires (if word == 0 then zeros + 1 else 0) <= 1 && Disassemble(word).Ok?
    ensures Scan([word] + rest, s, zeros)
      == Scan(rest, Track(s, Disassemble(word).value), if word == 0 then zeros + 1 else 0)
  {
    assert ([word] + rest)[1..] == rest;
  }

  /** `reg_tracker[r] = v`: one register of the array-held register file is set. */
  method SetRegister(reg: array<U32>, r: Gpr, v: U32)
    requires reg.Length == 32
    modifies reg
    ensures reg[..] == old(reg[..])[r := v]
  {
    reg[r] := v;
  }

  /**
   * The register tracking of one decoded instruction in `parse`: the
   * register file is updated in place, the recorded registers and the
   * `addi` balance are returned.
   */
  method TrackStep(reg: array<U32>, instr: Instruction, branchReg: Gpr, bssPtrReg: Gpr, jumpReg: Gpr, bssSign: int)
    returns (branchReg': Gpr, bssPtrReg': Gpr, jumpReg': Gpr, bssSign': int)
    requires reg.Length == 32
    modifies reg
    ensures Tracker(reg[..], branchReg', bssPtrReg', jumpReg', bssSign')
      == Track(Tracker(old(reg[..]), branchReg, bssPtrReg, jumpReg, bssSign), instr)
  {
    branchReg', bssPtrReg', jumpReg', bssSign' := branchReg, bssPtrReg, jumpReg, bssSign;
    if instr.Lui? {
      SetRegister(reg, instr.rDest, LuiValue(instr.imm));
    } else if instr.Addiu? {
      SetRegister(reg, instr.rDest, AddiuValue(reg[instr.rSrc], instr.imm));
    } else if instr.Ori? {
      SetRegister(reg, instr.rDest, OriValue(reg[instr.rSrc], instr.imm));
    } else if instr.Addi? {
      bssSign' := if instr.imm >= 0x8000 then bssSign - 1 else bssSign + 1;
    } else if instr.Bne? {
      branchReg' := instr.rCmpL;
    } else if instr.Bnez? {
      branchReg' := instr.rCmp;
    } else if instr.Jr? {
      jumpReg' := instr.rSrc;
    } else if instr.Sw? {
      bssPtrReg' := instr.rBase;
    }
  }

  /**
   * `parse`: the loop over the chunks with the register file in an array.
   * The printed trace and the address counters only feed the output and
   * are not modelled.
   */
  method Parse(data: seq<bv8>, endian: Endian) returns (r: Result<Analysis, bv32>)
    ensures r == Analyse(data, endian)
  {
    var reg := new U32[32](_ => 0);
    var branchReg: Gpr := Zero;
    var bssPtrReg: Gpr := Zero;
    var jumpReg: Gpr := Zero;
    var bssSign := 0;
    var consecutiveNops := 0;
    var pos := 0;
    assert reg[..] == Initial.reg;
    while pos + 4 <= |data|
      invariant pos <= |data|
      invariant consecutiveNops <= 1
      invariant Scan(Words(data, endian), Initial, 0)
        == Scan(Words(data[pos..], endian), Tracker(reg[..], branchReg, bssPtrReg, jumpReg, bssSign), consecutiveNops)
      decreases |data| - pos
    {
      ghost var before := Tracker(reg[..], branchReg, bssPtrReg, jumpReg, bssSign);
      WordsFrom(data, pos, endian);
      var word := BytesToReendWord(data[pos..pos + 4], endian);
      var nops := if word == 0 then consecutiveNops + 1 else 0;
      if nops > 1 {
        break;
      }
      var decoded := Disassemble(word);
      if decoded.Err? {
        return Err(word);
      }
      ScanStep(word, Words(data[pos + 4..], endian), before, consecutiveNops);
      consecutiveNops := nops;
      branchReg, bssPtrReg, jumpReg, bssSign := TrackStep(reg, decoded.value, branchReg, bssPtrReg, jumpReg, bssSign);
      pos := pos + 4;
    }
    r := Ok(Finish(Tracker(reg[..], branchReg, bssPtrReg, jumpReg, bssSign)));
  }
}
