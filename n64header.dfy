/**
 * The image's byte order and its fixed 0x40-byte boot header
 * (src/n64header/mod.rs). Bytes are `bv8`; every multi-byte field of the
 * header is big-endian.
 */
module N64Header {
  import opened Wrappers

  // ---------------------------------------------------------------------------
  // Byte order

  /**
   * The three byte orders an image is stored in: native big-endian (`Good`),
   * every 4-byte word reversed (`Bad`), and every 2-byte pair swapped (`Ugly`).
   */
  datatype Endian = Good | Bad | Ugly

  /** The first four bytes of an image stored in each byte order. */
  function Magic(e: Endian): (m: seq<bv8>)
    ensures |m| == 4
  {
    match e
    case Good => [0x80, 0x37, 0x12, 0x40]
    case Bad => [0x40, 0x12, 0x37, 0x80]
    case Ugly => [0x37, 0x80, 0x40, 0x12]
  }

  /** The first four bytes are one of the three magic patterns. */
  predicate KnownMagic(input: seq<bv8>)
    requires |input| >= 4
  {
    input[..4] == Magic(Good) || input[..4] == Magic(Bad) || input[..4] == Magic(Ugly)
  }

  /**
   * `get_endian`: classify an image by its first four bytes. The source
   * panics on a short input (slice out of range) and on an unknown pattern;
   * both are preconditions here.
   */
  function GetEndian(input: seq<bv8>): (e: Endian)
    requires |input| >= 4 && KnownMagic(input)
    ensures input[..4] == Magic(e)
  {
    if input[..4] == Magic(Good) then Good
    else if input[..4] == Magic(Bad) then Bad
    else Ugly
  }

  /** Only bytes 0..3 are examined, and each magic pattern identifies its own byte order. */
  lemma {:induction false} GetEndianOfMagic(e: Endian, rest: seq<bv8>)
    ensures KnownMagic(Magic(e) + rest)
    ensures GetEndian(Magic(e) + rest) == e
  {
    assert (Magic(e) + rest)[..4] == Magic(e);
  }

  // ---------------------------------------------------------------------------
  // Big-endian words

  /** The big-endian value of four bytes (`u32::from_be_bytes`). */
  function BigEndianWord(b: seq<bv8>): bv32
    requires |b| == 4
  {
    (b[0] as bv32 << 24) | (b[1] as bv32 << 16) | (b[2] as bv32 << 8) | b[3] as bv32
  }

  /** The four big-endian bytes of a word (`u32::to_be_bytes`). */
  function WordBytes(w: bv32): (b: seq<bv8>)
    ensures |b| == 4
  {
    [(w >> 24) as bv8, ((w >> 16) & 0xFF) as bv8, ((w >> 8) & 0xFF) as bv8, (w & 0xFF) as bv8]
  }

  /** `BigEndianWord` and `WordBytes` are inverses. */
  lemma WordBytesRoundTrip(w: bv32, b: seq<bv8>)
    requires |b| == 4
    ensures BigEndianWord(WordBytes(w)) == w
    ensures WordBytes(BigEndianWord(b)) == b
  {
    var x := BigEndianWord(b);
    assert WordBytes(x)[0] == b[0] && WordBytes(x)[1] == b[1];
    assert WordBytes(x)[2] == b[2] && WordBytes(x)[3] == b[3];
  }

  // ---------------------------------------------------------------------------
  // The header

  const HeaderSize: nat := 0x40

  /** `N64Header`: the fields of the header, in file order. */
  datatype Header = Header(
    piBsdDom1Register: seq<bv8>,  // 0x00, 4 bytes
    clockRate: bv32,              // 0x04
    entrypoint: bv32,             // 0x08
    revision: bv32,               // 0x0C, low byte is the libultra version
    checksum1: bv32,              // 0x10
    checksum2: bv32,              // 0x14
    unk18: seq<bv8>,              // 0x18, 8 bytes
    imageName: seq<bv8>,          // 0x20, 20 bytes of Shift-JIS text
    unk34: seq<bv8>,              // 0x34, 4 bytes
    mediaFormat: bv32,            // 0x38
    cartridgeId: seq<bv8>,        // 0x3C, 2 bytes
    countryCode: bv8,             // 0x3E
    version: bv8)                 // 0x3F

  /** The byte-array fields have their fixed sizes. */
  predicate WellSized(h: Header)
  {
    && |h.piBsdDom1Register| == 4
    && |h.unk18| == 8
    && |h.imageName| == 20
    && |h.unk34| == 4
    && |h.cartridgeId| == 2
  }

  /** The 0x40 bytes a header is stored as. */
  function EncodeHeader(h: Header): (b: seq<bv8>)
    requires WellSized(h)
    ensures |b| == HeaderSize
  {
    h.piBsdDom1Register
    + WordBytes(h.clockRate) + WordBytes(h.entrypoint) + WordBytes(h.revision)
    + WordBytes(h.checksum1) + WordBytes(h.checksum2)
    + h.unk18 + h.imageName + h.unk34
    + WordBytes(h.mediaFormat) + h.cartridgeId + [h.countryCode, h.version]
  }

  /** The error of a read that runs out of input. */
  datatype IoError = UnexpectedEof

  /**
   * The header at the start of `bytes`, each field at its fixed offset; an
   * input shorter than 0x40 bytes is an end-of-file error.
   */
  function HeaderAt(bytes: seq<bv8>): (r: Result<Header, IoError>)
    ensures r.Ok? <==> |bytes| >= HeaderSize
    ensures r.Ok? ==> WellSized(r.value)
  {
    if |bytes| < HeaderSize then Err(UnexpectedEof)
    else
      Ok(Header(
        bytes[0x00..0x04],
        BigEndianWord(bytes[0x04..0x08]),
        BigEndianWord(bytes[0x08..0x0C]),
        BigEndianWord(bytes[0x0C..0x10]),
        BigEndianWord(bytes[0x10..0x14]),
        BigEndianWord(bytes[0x14..0x18]),
        bytes[0x18..0x20],
        bytes[0x20..0x34],
        bytes[0x34..0x38],
        BigEndianWord(bytes[0x38..0x3C]),
        bytes[0x3C..0x3E],
        bytes[0x3E],
        bytes[0x3F]))
  }

  /** Parsing reads back what encoding wrote, whatever follows the header. */
  lemma HeaderRoundTrip(h: Header, rest: seq<bv8>)
    requires WellSized(h)
    ensures HeaderAt(EncodeHeader(h) + rest) == Ok(h)
  {
    var b := EncodeHeader(h) + rest;
    EncodedWords(h, rest);
    EncodedBytes(h, rest);
    WordBytesRoundTrip(h.clockRate, b[0x04..0x08]);
    WordBytesRoundTrip(h.entrypoint, b[0x08..0x0C]);
    WordBytesRoundTrip(h.revision, b[0x0C..0x10]);
    WordBytesRoundTrip(h.checksum1, b[0x10..0x14]);
    WordBytesRoundTrip(h.checksum2, b[0x14..0x18]);
    WordBytesRoundTrip(h.mediaFormat, b[0x38..0x3C]);
  }

  /** Where the encoding puts the six words. */
  lemma EncodedWords(h: Header, rest: seq<bv8>)
    requires WellSized(h)
    ensures var b := EncodeHeader(h) + rest;
      && b[0x04..0x08] == WordBytes(h.clockRate)
      && b[0x08..0x0C] == WordBytes(h.entrypoint)
      && b[0x0C..0x10] == WordBytes(h.revision)
      && b[0x10..0x14] == WordBytes(h.checksum1)
      && b[0x14..0x18] == WordBytes(h.checksum2)
      && b[0x38..0x3C] == WordBytes(h.mediaFormat)
  {
    LeadingLayout(h.piBsdDom1Register, WordBytes(h.clockRate), WordBytes(h.entrypoint),
      WordBytes(h.revision), WordBytes(h.checksum1), WordBytes(h.checksum2),
      h.unk18, h.imageName, h.unk34, WordBytes(h.mediaFormat), h.cartridgeId,
      [h.countryCode, h.version], rest);
    TrailingLayout(h.piBsdDom1Register, WordBytes(h.clockRate), WordBytes(h.entrypoint),
      WordBytes(h.revision), WordBytes(h.checksum1), WordBytes(h.checksum2),
      h.unk18, h.imageName, h.unk34, WordBytes(h.mediaFormat), h.cartridgeId,
      [h.countryCode, h.version], rest);
  }

  /** Where the encoding puts the byte-string fields and the two single bytes. */
  lemma EncodedBytes(h: Header, rest: seq<bv8>)
    requires WellSized(h)
    ensures var b := EncodeHeader(h) + rest;
      && b[0x00..0x04] == h.piBsdDom1Register
      && b[0x18..0x20] == h.unk18
      && b[0x20..0x34] == h.imageName
      && b[0x34..0x38] == h.unk34
      && b[0x3C..0x3E] == h.cartridgeId
      && b[0x3E] == h.countryCode && b[0x3F] == h.version
  {
    LeadingLayout(h.piBsdDom1Register, WordBytes(h.clockRate), WordBytes(h.entrypoint),
      WordBytes(h.revision), WordBytes(h.checksum1), WordBytes(h.checksum2),
      h.unk18, h.imageName, h.unk34, WordBytes(h.mediaFormat), h.cartridgeId,
      [h.countryCode, h.version], rest);
    TrailingLayout(h.piBsdDom1Register, WordBytes(h.clockRate), WordBytes(h.entrypoint),
      WordBytes(h.revision), WordBytes(h.checksum1), WordBytes(h.checksum2),
      h.unk18, h.imageName, h.unk34, WordBytes(h.mediaFormat), h.cartridgeId,
      [h.countryCode, h.version], rest);
  }

  /** The offsets of the first six fields in any byte string laid out like a header. */
  lemma LeadingLayout(f0: seq<bv8>, f1: seq<bv8>, f2: seq<bv8>, f3: seq<bv8>, f4: seq<bv8>, f5: seq<bv8>,
                      f6: seq<bv8>, f7: seq<bv8>, f8: seq<bv8>, f9: seq<bv8>, f10: seq<bv8>, f11: seq<bv8>,
                      rest: seq<bv8>)
    requires |f0| == |f1| == |f2| == |f3| == |f4| == |f5| == 4
    ensures var s := f0 + f1 + f2 + f3 + f4 + f5 + f6 + f7 + f8 + f9 + f10 + f11 + rest;
      && s[0x00..0x04] == f0 && s[0x04..0x08] == f1 && s[0x08..0x0C] == f2
      && s[0x0C..0x10] == f3 && s[0x10..0x14] == f4 && s[0x14..0x18] == f5
  {
  }

  /** The offsets of the last six fields in any byte string laid out like a header. */
  lemma TrailingLayout(f0: seq<bv8>, f1: seq<bv8>, f2: seq<bv8>, f3: seq<bv8>, f4: seq<bv8>, f5: seq<bv8>,
                       f6: seq<bv8>, f7: seq<bv8>, f8: seq<bv8>, f9: seq<bv8>, f10: seq<bv8>, f11: seq<bv8>,
                       rest: seq<bv8>)
    requires |f0| == |f1| == |f2| == |f3| == |f4| == |f5| == 4
    requires |f6| == 8 && |f7| == 0x14 && |f8| == 4 && |f9| == 4 && |f10| == 2 && |f11| == 2
    ensures var s := f0 + f1 + f2 + f3 + f4 + f5 + f6 + f7 + f8 + f9 + f10 + f11 + rest;
      && s[0x18..0x20] == f6 && s[0x20..0x34] == f7 && s[0x34..0x38] == f8
      && s[0x38..0x3C] == f9 && s[0x3C..0x3E] == f10 && s[0x3E] == f11[0] && s[0x3F] == f11[1]
  {
  }

  /** Two adjacent slices make up the slice that spans them. */
  lemma SliceConcat(s: seq<bv8>, i: nat, j: nat, k: nat)
    requires i <= j <= k <= |s|
    ensures s[i..j] + s[j..k] == s[i..k]
  {
    assert forall x :: 0 <= x < k - i ==> (s[i..j] + s[j..k])[x] == s[i..k][x];
  }

  /** Encoding a parsed header gives back exactly the 0x40 bytes it was read from. */
  lemma HeaderBytesRoundTrip(bytes: seq<bv8>)
    requires |bytes| >= HeaderSize
    ensures EncodeHeader(HeaderAt(bytes).value) == bytes[..HeaderSize]
  {
    var h := HeaderAt(bytes).value;
    WordBytesRoundTrip(0, bytes[0x04..0x08]);
    WordBytesRoundTrip(0, bytes[0x08..0x0C]);
    WordBytesRoundTrip(0, bytes[0x0C..0x10]);
    WordBytesRoundTrip(0, bytes[0x10..0x14]);
    WordBytesRoundTrip(0, bytes[0x14..0x18]);
    WordBytesRoundTrip(0, bytes[0x38..0x3C]);
    assert [h.countryCode, h.version] == bytes[0x3E..0x40];
    SliceConcat(bytes, 0, 0x04, 0x08);
    SliceConcat(bytes, 0, 0x08, 0x0C);
    SliceConcat(bytes, 0, 0x0C, 0x10);
    SliceConcat(bytes, 0, 0x10, 0x14);
    SliceConcat(bytes, 0, 0x14, 0x18);
    SliceConcat(bytes, 0, 0x18, 0x20);
    SliceConcat(bytes, 0, 0x20, 0x34);
    SliceConcat(bytes, 0, 0x34, 0x38);
    SliceConcat(bytes, 0, 0x38, 0x3C);
    SliceConcat(bytes, 0, 0x3C, 0x3E);
    SliceConcat(bytes, 0, 0x3E, 0x40);
    assert bytes[0..0x40] == bytes[..HeaderSize];
  }

  // ---------------------------------------------------------------------------
  // Reading the header from a byte stream

  /**
   * A byte stream with a cursor (`impl io::Read` over the image). A read
   * that needs more bytes than remain fails and, like `read_exact` over a
   * finite source, consumes what was left.
   */
  class Reader {
    const data: seq<bv8>
    var pos: nat

    ghost predicate Valid()
      reads this
    {
      pos <= |data|
    }

    /** The bytes not yet read. */
    function Remaining(): seq<bv8>
      reads this
      requires Valid()
    {
      data[pos..]
    }

    constructor (data: seq<bv8>)
      ensures Valid() && this.data == data && pos == 0
    {
      this.data := data;
      pos := 0;
    }

    /** `read_exact` of `n` bytes. */
    method ReadExact(n: nat) returns (r: Result<seq<bv8>, IoError>)
      requires Valid()
      modifies this
      ensures Valid()
      ensures r.Ok? <==> old(pos) + n <= |data|
      ensures r.Ok? ==> r.value == data[old(pos)..old(pos) + n] && pos == old(pos) + n
      ensures r.Err? ==> r.error == UnexpectedEof && pos == |data|
    {
      if pos + n <= |data| {
        r := Ok(data[pos..pos + n]);
        pos := pos + n;
      } else {
        r := Err(UnexpectedEof);
        pos := |data|;
      }
    }

    /** `read_u32::<BigEndian>`. */
    method ReadU32() returns (r: Result<bv32, IoError>)
      requires Valid()
      modifies this
      ensures Valid()
      ensures r.Ok? <==> old(pos) + 4 <= |data|
      ensures r.Ok? ==> r.value == BigEndianWord(data[old(pos)..old(pos) + 4]) && pos == old(pos) + 4
      ensures r.Err? ==> r.error == UnexpectedEof && pos == |data|
    {
      var bytes :- ReadExact(4);
      r := Ok(BigEndianWord(bytes));
    }

    /** `read_u8`. */
    method ReadU8() returns (r: Result<bv8, IoError>)
      requires Valid()
      modifies this
      ensures Valid()
      ensures r.Ok? <==> old(pos) + 1 <= |data|
      ensures r.Ok? ==> r.value == data[old(pos)] && pos == old(pos) + 1
      ensures r.Err? ==> r.error == UnexpectedEof && pos == |data|
    {
      var bytes :- ReadExact(1);
      r := Ok(bytes[0]);
    }
  }

  /** The header `HeaderAt` finds at offset `s` of `data`, field by field. */
  lemma HeaderAtOffset(data: seq<bv8>, s: nat)
    requires s + HeaderSize <= |data|
    ensures HeaderAt(data[s..]) == Ok(Header(
      data[s..s + 0x04],
      BigEndianWord(data[s + 0x04..s + 0x08]),
      BigEndianWord(data[s + 0x08..s + 0x0C]),
      BigEndianWord(data[s + 0x0C..s + 0x10]),
      BigEndianWord(data[s + 0x10..s + 0x14]),
      BigEndianWord(data[s + 0x14..s + 0x18]),
      data[s + 0x18..s + 0x20],
      data[s + 0x20..s + 0x34],
      data[s + 0x34..s + 0x38],
      BigEndianWord(data[s + 0x38..s + 0x3C]),
      data[s + 0x3C..s + 0x3E],
      data[s + 0x3E],
      data[s + 0x3F]))
  {
    var b := data[s..];
    assert b[0x00..0x04] == data[s..s + 0x04];
    assert b[0x04..0x08] == data[s + 0x04..s + 0x08];
    assert b[0x08..0x0C] == data[s + 0x08..s + 0x0C];
    assert b[0x0C..0x10] == data[s + 0x0C..s + 0x10];
    assert b[0x10..0x14] == data[s + 0x10..s + 0x14];
    assert b[0x14..0x18] == data[s + 0x14..s + 0x18];
    assert b[0x18..0x20] == data[s + 0x18..s + 0x20];
    assert b[0x20..0x34] == data[s + 0x20..s + 0x34];
    assert b[0x34..0x38] == data[s + 0x34..s + 0x38];
    assert b[0x38..0x3C] == data[s + 0x38..s + 0x3C];
    assert b[0x3C..0x3E] == data[s + 0x3C..s + 0x3E];
  }

  /** The first 0x18 header bytes: the PI register setting and the five words after it. */
  method ReadLeading(reader: Reader) returns (r: Result<(seq<bv8>, bv32, bv32, bv32, bv32, bv32), IoError>)
    requires reader.Valid()
    modifies reader
    ensures reader.Valid()
    ensures r.Ok? <==> old(reader.pos) + 0x18 <= |reader.data|
    ensures r.Ok? ==> reader.pos == old(reader.pos) + 0x18
    ensures r.Ok? ==> r.value == (
      reader.data[old(reader.pos)..old(reader.pos) + 0x04],
      BigEndianWord(reader.data[old(reader.pos) + 0x04..old(reader.pos) + 0x08]),
      BigEndianWord(reader.data[old(reader.pos) + 0x08..old(reader.pos) + 0x0C]),
      BigEndianWord(reader.data[old(reader.pos) + 0x0C..old(reader.pos) + 0x10]),
      BigEndianWord(reader.data[old(reader.pos) + 0x10..old(reader.pos) + 0x14]),
      BigEndianWord(reader.data[old(reader.pos) + 0x14..old(reader.pos) + 0x18]))
    ensures r.Err? ==> r.error == UnexpectedEof && reader.pos == |reader.data|
  {
    var piBsdDom1Register :- reader.ReadExact(4);
    var clockRate :- reader.ReadU32();
    var entrypoint :- reader.ReadU32();
    var revision :- reader.ReadU32();
    var checksum1 :- reader.ReadU32();
    var checksum2 :- reader.ReadU32();
    r := Ok((piBsdDom1Register, clockRate, entrypoint, revision, checksum1, checksum2));
  }

  /** The remaining 0x28 header bytes, from the reserved bytes at 0x18 to the version. */
  method ReadTrailing(reader: Reader) returns (r: Result<(seq<bv8>, seq<bv8>, seq<bv8>, bv32, seq<bv8>, bv8, bv8), IoError>)
    requires reader.Valid()
    modifies reader
    ensures reader.Valid()
    ensures r.Ok? <==> old(reader.pos) + 0x28 <= |reader.data|
    ensures r.Ok? ==> reader.pos == old(reader.pos) + 0x28
    ensures r.Ok? ==> r.value == (
      reader.data[old(reader.pos)..old(reader.pos) + 0x08],
      reader.data[old(reader.pos) + 0x08..old(reader.pos) + 0x1C],
      reader.data[old(reader.pos) + 0x1C..old(reader.pos) + 0x20],
      BigEndianWord(reader.data[old(reader.pos) + 0x20..old(reader.pos) + 0x24]),
      reader.data[old(reader.pos) + 0x24..old(reader.pos) + 0x26],
      reader.data[old(reader.pos) + 0x26],
      reader.data[old(reader.pos) + 0x27])
    ensures r.Err? ==> r.error == UnexpectedEof && reader.pos == |reader.data|
  {
    var unk18 :- reader.ReadExact(8);
    var imageName :- reader.ReadExact(20);
    var unk34 :- reader.ReadExact(4);
    var mediaFormat :- reader.ReadU32();
    var cartridgeId :- reader.ReadExact(2);
    var countryCode :- reader.ReadU8();
    var version :- reader.ReadU8();
    r := Ok((unk18, imageName, unk34, mediaFormat, cartridgeId, countryCode, version));
  }

  /**
   * `read_header`: read the thirteen fields in order, words big-endian. It
   * succeeds exactly when 0x40 bytes remain, consumes exactly those, and
   * yields the header at their fixed offsets; a reader that runs out part-way
   * fails with `UnexpectedEof`.
   */
  method ReadHeader(reader: Reader) returns (r: Result<Header, IoError>)
    requires reader.Valid()
    modifies reader
    ensures reader.Valid()
    ensures r == HeaderAt(old(reader.Remaining()))
    ensures r.Ok? ==> reader.pos == old(reader.pos) + HeaderSize
    ensures r.Err? ==> reader.pos == |reader.data|
  {
    ghost var start := reader.pos;
    var leading :- ReadLeading(reader);
    var trailing :- ReadTrailing(reader);
    HeaderAtOffset(reader.data, start);
    r := Ok(Header(leading.0, leading.1, leading.2, leading.3, leading.4, leading.5,
                   trailing.0, trailing.1, trailing.2, trailing.3, trailing.4, trailing.5, trailing.6));
  }

  // ---------------------------------------------------------------------------
  // Accessors

  /** The entrypoint the header claims (before the boot-ROM correction): the word stored at 0x08. */
  function Entrypoint(h: Header): (e: bv32)
    ensures WellSized(h) ==> WordBytes(e) == EncodeHeader(h)[0x08..0x0C]
  {
    if WellSized(h) then
      EncodedWords(h, []);
      assert EncodeHeader(h) + [] == EncodeHeader(h);
      h.entrypoint
    else h.entrypoint
  }

  /** The two checksum words, stored at 0x10 and 0x14. */
  function Checksum(h: Header): (c: (bv32, bv32))
    ensures WellSized(h) ==> WordBytes(c.0) == EncodeHeader(h)[0x10..0x14]
    ensures WellSized(h) ==> WordBytes(c.1) == EncodeHeader(h)[0x14..0x18]
  {
    if WellSized(h) then
      EncodedWords(h, []);
      assert EncodeHeader(h) + [] == EncodeHeader(h);
      (h.checksum1, h.checksum2)
    else (h.checksum1, h.checksum2)
  }

  /** The Unicode scalar values: the code points `char::from_u32` accepts. */
  predicate ScalarValue(n: int)
  {
    n < 0xD800 || (0xE000 <= n && n < 0x11_0000)
  }

  /** `char::from_u32`: defined for the Unicode scalar values only. */
  function CharFromU32(v: bv32): (r: Option<char>)
    ensures r.Some? <==> ScalarValue(v as int)
    ensures r.Some? ==> r.value as int == v as int
  {
    var n := v as int;
    if ScalarValue(n) then Some(n as char) else None
  }

  /** The libultra version: the low byte of the revision, which is always a valid character. */
  function LibultraVersion(h: Header): (r: Option<char>)
    ensures r.Some? && r.value as int == (h.revision & 0xFF) as int
  {
    CharFromU32(h.revision & 0xFF)
  }

  /** The media format code; the source panics when it is not a valid character. */
  function MediaFormat(h: Header): (c: char)
    requires CharFromU32(h.mediaFormat).Some?
    ensures c as int == h.mediaFormat as int
  {
    CharFromU32(h.mediaFormat).value
  }

  /** The country code; a single byte is always a valid character. */
  function CountryCode(h: Header): (c: char)
    ensures c as int == h.countryCode as int
  {
    CharFromU32(h.countryCode as bv32).value
  }

  /**
   * What the accessors of a parsed header read: the entrypoint is the
   * big-endian word at 0x08, the checksum the words at 0x10 and 0x14.
   */
  lemma AccessorsAt(bytes: seq<bv8>)
    requires |bytes| >= HeaderSize
    ensures Entrypoint(HeaderAt(bytes).value) == BigEndianWord(bytes[0x08..0x0C])
    ensures Checksum(HeaderAt(bytes).value) == (BigEndianWord(bytes[0x10..0x14]), BigEndianWord(bytes[0x14..0x18]))
    ensures LibultraVersion(HeaderAt(bytes).value).value as int == bytes[0x0F] as int
  {
    var b := bytes[0x0C..0x10];
    assert BigEndianWord(b) & 0xFF == b[3] as bv32;
  }

  const MediaFormatCodes: set<char> := {'N', 'D', 'C', 'E', 'Z'}

  /** What a media format code means; other codes are an error. */
  function MediaFormatDescription(h: Header): (r: Result<string, string>)
    requires CharFromU32(h.mediaFormat).Some?
    ensures r.Ok? <==> MediaFormat(h) in MediaFormatCodes
    ensures r.Err? ==> r.error == "Unrecognised media format"
  {
    match MediaFormat(h)
    case 'N' => Ok("cartridge")
    case 'D' => Ok("64DD disk")
    case 'C' => Ok("cartridge part of expandable game OR GameCube")
    case 'E' => Ok("64DD expansion for cart")
    case 'Z' => Ok("Aleck64 cartridge")
    case _ => Err("Unrecognised media format")
  }

  const CountryCodes: set<char> :=
    {'7', 'A', 'B', 'C', 'D', 'E', 'F', 'G', 'H', 'I', 'J', 'K', 'L', 'N', 'P', 'S', 'U', 'W', 'X', 'Y', '\0'}

  /** What a country code means; other codes are an error. */
  function CountryCodeDescription(h: Header): (r: Result<string, string>)
    ensures r.Ok? <==> CountryCode(h) in CountryCodes
    ensures r.Err? ==> r.error == "Unrecognised country code"
  {
    match CountryCode(h)
    case '7' => Ok("Beta")
    case 'A' => Ok("Asian (NTSC)")
    case 'B' => Ok("Brazilian")
    case 'C' => Ok("Chinese")
    case 'D' => Ok("German")
    case 'E' => Ok("North America")
    case 'F' => Ok("French")
    case 'G' => Ok("Gateway 64 (NTSC)")
    case 'H' => Ok("Dutch")
    case 'I' => Ok("Italian")
    case 'J' => Ok("Japanese")
    case 'K' => Ok("Korean")
    case 'L' => Ok("Gateway 64 (PAL)")
    case 'N' => Ok("Canadian")
    case 'P' => Ok("European (basic spec.)")
    case 'S' => Ok("Spanish")
    case 'U' => Ok("Australian")
    case 'W' => Ok("Scandinavian")
    case 'X' => Ok("European")
    case 'Y' => Ok("European")
    case '\0' => Ok("iQue roms have zeros here")
    case _ => Err("Unrecognised country code")
  }
}
