/**
 * The boot-ROM (IPL3) table: which CIC chip a boot code belongs to, by the
 * checksum of that code, and how that chip adjusts the header's entrypoint
 * (src/n64header/ipl3.rs).
 */
module Ipl3 {
  import opened Wrappers
  import opened Uint

  /** `CICInfo`: a table entry; "-" stands for a region the chip has no variant in. */
  datatype CicInfo = CicInfo(checksum: U32, ntscName: string, palName: string, entrypointOffset: U32)

  /** The six known boot codes, in table order. */
  const KnownCics: seq<CicInfo> := [
    CicInfo(0xD1F2_D592, "6102", "7101", 0x00_0000),
    CicInfo(0x27DF_61E2, "6103", "7103", 0x10_0000),
    CicInfo(0x229F_516C, "6105", "7105", 0x00_0000),
    CicInfo(0xA0DD_69F7, "6106", "7106", 0x20_0000),
    CicInfo(0x0013_579C, "6101", "-", 0x00_0000),
    CicInfo(0xDAB4_42CD, "-", "7102", 0x8000_0480)
  ]

  /** `crc` is the checksum of one of the known boot codes. */
  predicate KnownChecksum(crc: U32)
  {
    exists i :: 0 <= i < |KnownCics| && KnownCics[i].checksum == crc
  }

  /**
   * `get_from_crc`: the table entry for a boot-code checksum. The source
   * panics on an unknown checksum; here that is `None`.
   */
  function GetFromCrc(crc: U32): (r: Option<CicInfo>)
    ensures r.Some? ==> r.value.checksum == crc && r.value in KnownCics
    ensures r.None? <==> !KnownChecksum(crc)
  {
    match crc
    case 0xD1F2_D592 => Some(KnownCics[0])
    case 0x27DF_61E2 => Some(KnownCics[1])
    case 0x229F_516C => Some(KnownCics[2])
    case 0xA0DD_69F7 => Some(KnownCics[3])
    case 0x0013_579C => Some(KnownCics[4])
    case 0xDAB4_42CD => Some(KnownCics[5])
    case _ => None
  }

  /** No two table entries share a checksum, so the lookup is unambiguous. */
  lemma ChecksumsDistinct()
    ensures forall i, j :: 0 <= i < j < |KnownCics| ==> KnownCics[i].checksum != KnownCics[j].checksum
  {
  }

  /** Looking up any entry's checksum finds that very entry. */
  lemma GetFromCrcFindsEntry(i: nat)
    requires i < |KnownCics|
    ensures GetFromCrc(KnownCics[i].checksum) == Some(KnownCics[i])
  {
  }

  /**
   * `name`: the PAL name when there is no NTSC variant, the NTSC name when
   * there is no PAL variant, otherwise both separated by " / ".
   */
  function Name(c: CicInfo): (name: string)
    ensures c.ntscName == "-" ==> name == c.palName
    ensures c.ntscName != "-" && c.palName == "-" ==> name == c.ntscName
    ensures c.ntscName != "-" && c.palName != "-" ==> name == c.ntscName + " / " + c.palName
  {
    if c.ntscName == "-" then c.palName
    else if c.palName == "-" then c.ntscName
    else c.ntscName + " / " + c.palName
  }

  /** The names the six known chips are reported under. */
  lemma KnownNames()
    ensures Name(KnownCics[0]) == "6102 / 7101"
    ensures Name(KnownCics[1]) == "6103 / 7103"
    ensures Name(KnownCics[2]) == "6105 / 7105"
    ensures Name(KnownCics[3]) == "6106 / 7106"
    ensures Name(KnownCics[4]) == "6101"
    ensures Name(KnownCics[5]) == "7102"
  {
  }

  /**
   * `correct_entrypoint`: an offset with bit 31 set is the entrypoint itself;
   * any other offset is subtracted from the header's entrypoint (32-bit,
   * wrapping).
   */
  function CorrectEntrypoint(c: CicInfo, headerEntrypoint: U32): (ep: U32)
    ensures c.entrypointOffset >= 0x8000_0000 ==> ep == c.entrypointOffset
    ensures c.entrypointOffset < 0x8000_0000 ==>
      (ep as int + c.entrypointOffset as int) % 0x1_0000_0000 == headerEntrypoint as int
    ensures c.entrypointOffset < 0x8000_0000 && headerEntrypoint >= c.entrypointOffset ==>
      ep == headerEntrypoint - c.entrypointOffset
  {
    var offset := c.entrypointOffset;
    if offset >= 0x8000_0000 then offset
    else Wrap(headerEntrypoint as int - offset as int)
  }

  /**
   * Of the known chips only the 7102 (checksum 0xDAB442CD) hard-codes its
   * entrypoint, always 0x80000480; the 6101, 6102 and 6105 keep the
   * header's entrypoint as it is.
   */
  lemma CorrectionByChip(i: nat, headerEntrypoint: U32)
    requires i < |KnownCics|
    ensures KnownCics[i].entrypointOffset >= 0x8000_0000 <==> KnownCics[i].checksum == 0xDAB4_42CD
    ensures KnownCics[i].checksum == 0xDAB4_42CD ==> CorrectEntrypoint(KnownCics[i], headerEntrypoint) == 0x8000_0480
    ensures KnownCics[i].entrypointOffset == 0 <==> i in {0, 2, 4}
    ensures KnownCics[i].entrypointOffset == 0 ==> CorrectEntrypoint(KnownCics[i], headerEntrypoint) == headerEntrypoint
  {
  }
}
