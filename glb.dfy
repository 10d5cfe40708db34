/** GLB container framing: the 12-byte file header and the 8-byte header of
    the first (JSON) chunk, all little-endian unsigned 32-bit values, as laid
    out in sections 4.4 (File Header) and 4.5 (Chunks) of the Khronos glTF 2.0
    specification. */
module Glb {
  import opened Base

  /** "glTF" read as a little-endian u32. */
  const Magic: U32 := 0x46546C67
  /** "JSON" read as a little-endian u32. */
  const ChunkJson: U32 := 0x4E4F534A
  /** "BIN\0" read as a little-endian u32. */
  const ChunkBin: U32 := 0x004E4942
  /** The size of the Go `glbHeader` struct: three u32 header words plus one chunk header. */
  const HeaderSize: nat := 20
  const ChunkHeaderSize: nat := 8

  datatype ChunkHeader = ChunkHeader(length: U32, chunkType: U32)

  datatype GlbHeader = GlbHeader(magic: U32, version: U32, length: U32, json: ChunkHeader)

  /** The little-endian u32 stored at `s[off..off + 4]`. */
  function U32At(s: seq<Byte>, off: nat): U32
    requires off + 4 <= |s|
  {
    s[off] as int + 0x100 * (s[off + 1] as int + 0x100 * (s[off + 2] as int + 0x100 * s[off + 3] as int))
  }

  /** The four little-endian bytes of `x`. */
  function U32Bytes(x: U32): (s: seq<Byte>)
    ensures |s| == 4
  {
    [x % 0x100, (x / 0x100) % 0x100, (x / 0x100 / 0x100) % 0x100, x / 0x100 / 0x100 / 0x100]
  }

  lemma SplitByte(y: int, lo: int, hi: int)
    requires 0 <= lo < 0x100 && 0 <= hi && y == lo + 0x100 * hi
    ensures y % 0x100 == lo && y / 0x100 == hi
  {
  }

  /** Writing a u32 and reading it back gives it back. */
  lemma U32WriteRead(x: U32)
    ensures U32At(U32Bytes(x), 0) == x
  {
    var q1 := x / 0x100;
    var q2 := q1 / 0x100;
    var q3 := q2 / 0x100;
    assert x == x % 0x100 + 0x100 * q1;
    assert q1 == q1 % 0x100 + 0x100 * q2;
    assert q2 == q2 % 0x100 + 0x100 * q3;
  }

  /** Reading four bytes and writing them again gives the same four bytes. */
  lemma U32ReadWrite(s: seq<Byte>, off: nat)
    requires off + 4 <= |s|
    ensures U32Bytes(U32At(s, off)) == s[off..off + 4]
  {
    var y := U32At(s, off);
    var h1 := s[off + 1] as int + 0x100 * (s[off + 2] as int + 0x100 * s[off + 3] as int);
    var h2 := s[off + 2] as int + 0x100 * s[off + 3] as int;
    SplitByte(y, s[off], h1);
    SplitByte(h1, s[off + 1], h2);
    SplitByte(h2, s[off + 2], s[off + 3]);
  }

  function ChunkHeaderAt(s: seq<Byte>, off: nat): ChunkHeader
    requires off + ChunkHeaderSize <= |s|
  {
    ChunkHeader(U32At(s, off), U32At(s, off + 4))
  }

  /** `binary.Read(r, binary.LittleEndian, &header)` over the 20 bytes at `off`. */
  function HeaderAt(s: seq<Byte>, off: nat): GlbHeader
    requires off + HeaderSize <= |s|
  {
    GlbHeader(U32At(s, off), U32At(s, off + 4), U32At(s, off + 8), ChunkHeaderAt(s, off + 12))
  }

  function ChunkHeaderBytes(c: ChunkHeader): (s: seq<Byte>)
    ensures |s| == ChunkHeaderSize
  {
    U32Bytes(c.length) + U32Bytes(c.chunkType)
  }

  function HeaderBytes(h: GlbHeader): (s: seq<Byte>)
    ensures |s| == HeaderSize
  {
    U32Bytes(h.magic) + U32Bytes(h.version) + U32Bytes(h.length) + ChunkHeaderBytes(h.json)
  }

  lemma U32AtShift(a: seq<Byte>, b: seq<Byte>, c: seq<Byte>)
    requires |b| == 4
    ensures U32At(a + b + c, |a|) == U32At(b, 0)
  {
    var s := a + b + c;
    assert s[|a|] == b[0] && s[|a| + 1] == b[1] && s[|a| + 2] == b[2] && s[|a| + 3] == b[3];
  }

  lemma ChunkHeaderRoundTrip(c: ChunkHeader, pre: seq<Byte>, post: seq<Byte>)
    ensures ChunkHeaderAt(pre + ChunkHeaderBytes(c) + post, |pre|) == c
  {
    var s := pre + ChunkHeaderBytes(c) + post;
    U32WriteRead(c.length);
    U32WriteRead(c.chunkType);
    U32AtShift(pre, U32Bytes(c.length), U32Bytes(c.chunkType) + post);
    assert s == pre + U32Bytes(c.length) + (U32Bytes(c.chunkType) + post);
    U32AtShift(pre + U32Bytes(c.length), U32Bytes(c.chunkType), post);
    assert s == (pre + U32Bytes(c.length)) + U32Bytes(c.chunkType) + post;
  }

  /** Reading back a written header gives the same five fields, whatever
      bytes surround it. */
  lemma {:induction false} HeaderRoundTrip(h: GlbHeader, pre: seq<Byte>, post: seq<Byte>)
    ensures HeaderAt(pre + HeaderBytes(h) + post, |pre|) == h
  {
    var s := pre + HeaderBytes(h) + post;
    var b0, b1, b2 := U32Bytes(h.magic), U32Bytes(h.version), U32Bytes(h.length);
    var c := ChunkHeaderBytes(h.json);
    U32WriteRead(h.magic);
    U32WriteRead(h.version);
    U32WriteRead(h.length);
    assert s == pre + b0 + (b1 + b2 + c + post);
    U32AtShift(pre, b0, b1 + b2 + c + post);
    assert s == (pre + b0) + b1 + (b2 + c + post);
    U32AtShift(pre + b0, b1, b2 + c + post);
    assert s == (pre + b0 + b1) + b2 + (c + post);
    U32AtShift(pre + b0 + b1, b2, c + post);
    assert s == (pre + b0 + b1 + b2) + c + post;
    ChunkHeaderRoundTrip(h.json, pre + b0 + b1 + b2, post);
  }

  /** `validateGLBHeader` as written: the sum `jsonLength + 20` is computed in
      uint32 and so wraps around past 2^32 - 1. */
  function ValidateHeaderAsWritten(h: GlbHeader, maxMemoryAllocation: int): Option<Error>
  {
    if h.length > maxMemoryAllocation then Some(QuotaExceeded("bytes of glb buffer > MaxMemoryAllocation"))
    else if h.json.chunkType != ChunkJson || (h.json.length + HeaderSize) % TwoTo32 > h.length then
      Some(InvalidGlbJsonHeader)
    else None
  }

  /** `validateGLBHeader` as intended: the JSON chunk and the header fit in
      the declared total length, which fits in the memory quota. */
  function ValidateHeader(h: GlbHeader, maxMemoryAllocation: int): (r: Option<Error>)
    ensures r.None? <==>
      h.json.chunkType == ChunkJson && HeaderSize + h.json.length <= h.length <= maxMemoryAllocation
    ensures r.Some? && h.length <= maxMemoryAllocation ==> r == Some(InvalidGlbJsonHeader)
  {
    if h.length > maxMemoryAllocation then Some(QuotaExceeded("bytes of glb buffer > MaxMemoryAllocation"))
    else if h.json.chunkType != ChunkJson || h.json.length + HeaderSize > h.length then
      Some(InvalidGlbJsonHeader)
    else None
  }

  /** The two checks differ only where the uint32 sum wraps. */
  lemma ValidateAgreesWithoutWrap(h: GlbHeader, maxMemoryAllocation: int)
    requires h.json.length + HeaderSize < TwoTo32
    ensures ValidateHeaderAsWritten(h, maxMemoryAllocation) == ValidateHeader(h, maxMemoryAllocation)
  {
  }

  /** A JSON chunk declared 0xFFFFFFF0 bytes long inside a 100-byte container
      passes the check as written (0xFFFFFFF0 + 20 wraps to 4) and is refused
      by the intended one. */
  lemma WrappedJsonLengthAccepted()
    ensures var h := GlbHeader(Magic, 2, 100, ChunkHeader(0xFFFF_FFF0, ChunkJson));
            ValidateHeaderAsWritten(h, 32 * 1024 * 1024).None? &&
            ValidateHeader(h, 32 * 1024 * 1024) == Some(InvalidGlbJsonHeader)
  {
  }

  /** What `readGLBHeader` finds at `pos`: not a GLB container (nothing is
      consumed), or a GLB header together with the verdict of its validation. */
  datatype HeaderRead = NotBinary | Binary(header: GlbHeader, err: Option<Error>)

  function ReadHeader(s: seq<Byte>, pos: nat, maxMemoryAllocation: int): (r: HeaderRead)
    requires pos <= |s|
    ensures r.NotBinary? <==> |s| - pos < HeaderSize || U32At(s, pos) != Magic
    ensures r.Binary? ==> r.header == HeaderAt(s, pos) && r.header.magic == Magic
    // the verdict is the check as written, with its 32-bit sum
    ensures r.Binary? ==> r.err == ValidateHeaderAsWritten(r.header, maxMemoryAllocation)
  {
    if |s| - pos < HeaderSize then NotBinary
    else
      var h := HeaderAt(s, pos);
      if h.magic != Magic then NotBinary
      else Binary(h, ValidateHeaderAsWritten(h, maxMemoryAllocation))
  }
}
