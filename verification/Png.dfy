/** The PNG writer, and a reader of the file format that recovers what was written. */
module Png {
  import opened Prelude
  import opened Crc32

  const SIGNATURE: seq<Byte> := [137, 80, 78, 71, 13, 10, 26, 10]
  const IHDR: seq<Byte> := [73, 72, 68, 82]
  const IDAT: seq<Byte> := [73, 68, 65, 84]
  const IEND: seq<Byte> := [73, 69, 78, 68]

  // ----- Unsigned 32-bit numbers, most significant byte first --------------------------------

  type Number32 = n: nat | n < 0x1_0000_0000

  /** How chunks are checked; the files use `CrcNumber`. */
  type Checksum = seq<Byte> -> Number32

  function U32(n: Number32): (bytes: seq<Byte>)
    ensures |bytes| == 4
  {
    [n / 0x100_0000, n / 0x1_0000 % 256, n / 256 % 256, n % 256]
  }

  function ReadU32(bytes: seq<Byte>): nat
    requires |bytes| == 4
  {
    var a: nat, b: nat, c: nat, d: nat := bytes[0], bytes[1], bytes[2], bytes[3];
    ((a * 256 + b) * 256 + c) * 256 + d
  }

  lemma U32ReadsBack(n: Number32)
    ensures ReadU32(U32(n)) == n
  {
    var a, b := n / 256, n / 0x1_0000;
    assert n == a * 256 + n % 256;
    assert a == b * 256 + a % 256 && b == a / 256;
    assert b == b / 256 * 256 + b % 256 && n / 0x100_0000 == b / 256;
  }

  function CrcNumber(data: seq<Byte>): Number32 {
    WordSmall(Crc(data));
    Number(Crc(data))
  }

  lemma WordSmall(w: Word)
    ensures Number(w) < 0x1_0000_0000
  {
    NumberSmall(w);
    assert Pow2(8) == 256 && Pow2(16) == 65536 && Pow2(24) == 16777216 && Pow2(32) == 0x1_0000_0000;
  }

  // ----- Writing ------------------------------------------------------------------------------

  /** One chunk: length, type, data and the checksum of type and data. */
  function ChunkBytes(kind: seq<Byte>, data: seq<Byte>, crc: Checksum): seq<Byte>
    requires |data| < 0x1_0000_0000
  {
    U32(|data|) + kind + data + U32(crc(kind + data))
  }

  /** Writing a length that does not fit 32 bits throws. */
  method Chunk(table: array<Word>, kind: seq<Byte>, data: seq<Byte>) returns (r: Result<seq<Byte>, string>)
    requires IsTable(table[..])
    ensures r.Success? <==> |data| < 0x1_0000_0000
    ensures r.Success? ==> r.value == ChunkBytes(kind, data, CrcNumber)
  {
    if |data| >= 0x1_0000_0000 {
      return Failure("ERR_OUT_OF_RANGE");
    }
    var body := kind + data;
    var crc := ComputeCrc32(table, body);
    WordSmall(crc);
    r := Success(U32(|data|) + body + U32(Number(crc)));
    assert U32(|data|) + body + U32(Number(crc)) == ChunkBytes(kind, data, CrcNumber);
  }

  function HeaderData(width: nat, height: nat): seq<Byte>
    requires width < 0x1_0000_0000 && height < 0x1_0000_0000
  {
    U32(width) + U32(height) + [8, 2, 0, 0, 0]
  }

  /** The first `y` scanlines, each preceded by filter type 0. */
  function Scanlines(rgb: seq<Byte>, stride: nat, y: nat): (raw: seq<Byte>)
    requires y * stride <= |rgb|
    ensures |raw| == y * (stride + 1)
  {
    if y == 0 then []
    else
      RowBounds(stride, y - 1);
      Scanlines(rgb, stride, y - 1) + [0] + rgb[(y - 1) * stride..y * stride]
  }

  lemma RowBounds(stride: nat, y: nat)
    ensures (y + 1) * stride == y * stride + stride
    ensures (y + 1) * (stride + 1) == y * (stride + 1) + stride + 1
  {
  }

  function FileBytes(header: seq<Byte>, data: seq<Byte>, end: seq<Byte>): seq<Byte> {
    SIGNATURE + header + data + end
  }

  function PngBytes(width: nat, height: nat, compressed: seq<Byte>, crc: Checksum): seq<Byte>
    requires width < 0x1_0000_0000 && height < 0x1_0000_0000 && |compressed| < 0x1_0000_0000
  {
    FileBytes(ChunkBytes(IHDR, HeaderData(width, height), crc), ChunkBytes(IDAT, compressed, crc),
              ChunkBytes(IEND, [], crc))
  }

  lemma ProductGrows(a: nat, b: nat, k: nat)
    requires a <= b
    ensures a * k <= b * k
  {
    assert b * k == a * k + (b - a) * k;
  }

  /** Writing row `y` after the rows before it extends the scanlines by one. */
  lemma NextScanline(rgb: seq<Byte>, stride: nat, y: nat)
    requires y * stride <= (y + 1) * stride <= |rgb|
    ensures Scanlines(rgb, stride, y + 1) == Scanlines(rgb, stride, y) + [0] + rgb[y * stride..(y + 1) * stride]
  {
  }

  /** Fill the filter bytes and copy the rows, in place. */
  method FillScanlines(rgb: seq<Byte>, stride: nat, height: nat) returns (raw: array<Byte>)
    requires height * stride <= |rgb|
    ensures raw[..] == Scanlines(rgb, stride, height)
  {
    raw := new Byte[height * (stride + 1)](_ => 0);
    for y := 0 to height
      invariant y * stride <= |rgb| && y * (stride + 1) <= raw.Length
      invariant raw[..y * (stride + 1)] == Scanlines(rgb, stride, y)
    {
      RowBounds(stride, y);
      ProductGrows(y + 1, height, stride);
      ProductGrows(y + 1, height, stride + 1);
      FillScanline(rgb, stride, y, raw);
    }
    assert raw[..raw.Length] == raw[..];
  }

  method FillScanline(rgb: seq<Byte>, stride: nat, y: nat, raw: array<Byte>)
    requires y * stride <= (y + 1) * stride <= |rgb| && (y + 1) * stride == y * stride + stride
    requires y * (stride + 1) <= (y + 1) * (stride + 1) <= raw.Length
    requires (y + 1) * (stride + 1) == y * (stride + 1) + stride + 1
    requires raw[..y * (stride + 1)] == Scanlines(rgb, stride, y)
    modifies raw
    ensures raw[..(y + 1) * (stride + 1)] == Scanlines(rgb, stride, y + 1)
  {
    NextScanline(rgb, stride, y);
    CopyRow(rgb, y * stride, stride, raw, y * (stride + 1));
  }

  /** One scanline: the filter byte and a copy of the row's bytes. */
  method CopyRow(rgb: seq<Byte>, offset: nat, stride: nat, raw: array<Byte>, start: nat)
    requires offset + stride <= |rgb| && start + stride + 1 <= raw.Length
    modifies raw
    ensures raw[..start + stride + 1] == old(raw[..start]) + [0] + rgb[offset..offset + stride]
    ensures raw[start + stride + 1..] == old(raw[start + stride + 1..])
  {
    raw[start] := 0;
    forall i | 0 <= i < stride {
      raw[start + 1 + i] := rgb[offset + i];
    }
    assert raw[start + 1..start + stride + 1] == rgb[offset..offset + stride];
  }

  /** A typed array: some octets of an underlying buffer. */
  datatype View = View(buffer: seq<Byte>, offset: nat, length: nat)

  predicate InBuffer(v: View) {
    v.offset + v.length <= |v.buffer|
  }

  /** Everything in the buffer from the view's first octet on, which is what the encoder reads from. */
  function Onwards(v: View): seq<Byte>
    requires InBuffer(v)
  {
    v.buffer[v.offset..]
  }

  /** `deflate` is the compressor; out-of-range sizes throw, and so does a buffer that ends before the pixels do. */
  method EncodePng(table: array<Word>, width: nat, height: nat, rgbData: View, deflate: seq<Byte> -> seq<Byte>)
      returns (r: Result<seq<Byte>, string>)
    requires IsTable(table[..]) && InBuffer(rgbData)
    ensures r.Success? <==>
              && width < 0x1_0000_0000 && height < 0x1_0000_0000 && height * (width * 3) <= |Onwards(rgbData)|
              && |deflate(Scanlines(Onwards(rgbData), width * 3, height))| < 0x1_0000_0000
    ensures r.Success? ==>
              r.value == PngBytes(width, height, deflate(Scanlines(Onwards(rgbData), width * 3, height)), CrcNumber)
  {
    r := EncodeRows(table, width, height, rgbData.buffer[rgbData.offset..], deflate);
  }

  method EncodeRows(table: array<Word>, width: nat, height: nat, rgb: seq<Byte>, deflate: seq<Byte> -> seq<Byte>)
      returns (r: Result<seq<Byte>, string>)
    requires IsTable(table[..])
    ensures r.Success? <==>
              && width < 0x1_0000_0000 && height < 0x1_0000_0000 && height * (width * 3) <= |rgb|
              && |deflate(Scanlines(rgb, width * 3, height))| < 0x1_0000_0000
    ensures r.Success? ==> r.value == PngBytes(width, height, deflate(Scanlines(rgb, width * 3, height)), CrcNumber)
  {
    if width >= 0x1_0000_0000 || height >= 0x1_0000_0000 {
      return Failure("ERR_OUT_OF_RANGE");
    }
    var stride := width * 3;
    if height * stride > |rgb| {
      return Failure("ERR_BUFFER_OUT_OF_BOUNDS");
    }
    var raw := FillScanlines(rgb, stride, height);
    var header := Chunk(table, IHDR, HeaderData(width, height));
    var data := Chunk(table, IDAT, deflate(raw[..]));
    var end := Chunk(table, IEND, []);
    if data.Failure? {
      return Failure(data.error);
    }
    r := Success(SIGNATURE + header.value + data.value + end.value);
  }

  // ----- Reading: chunk layout as in section 3.2 of RFC 2083 ------------------------------------

  datatype ChunkRecord = ChunkRecord(kind: seq<Byte>, data: seq<Byte>)

  datatype Image = Image(width: nat, height: nat, rgb: seq<Byte>)

  /** The first chunk of `s` and the rest, if its length and checksum are right. */
  function ReadChunk(s: seq<Byte>, crc: Checksum): Option<(ChunkRecord, seq<Byte>)> {
    if |s| < 12 then None
    else
      var n := ReadU32(s[..4]);
      if |s| < 12 + n || ReadU32(s[8 + n..12 + n]) != crc(s[4..8 + n]) then None
      else Some((ChunkRecord(s[4..8], s[8..8 + n]), s[12 + n..]))
  }

  /** All chunks of a file body, which must end right after its IEND chunk. */
  function ReadChunks(s: seq<Byte>, crc: Checksum): Option<seq<ChunkRecord>>
    decreases |s|
  {
    match ReadChunk(s, crc)
    case None => None
    case Some((c, rest)) =>
      if c.kind == IEND then if rest == [] then Some([c]) else None
      else
        match ReadChunks(rest, crc)
        case None => None
        case Some(cs) => Some([c] + cs)
  }

  /** The pixel bytes of scanlines that all use filter type 0. */
  function Unfilter(raw: seq<Byte>, stride: nat, height: nat): Option<seq<Byte>> {
    if height == 0 then if raw == [] then Some([]) else None
    else if |raw| < stride + 1 || raw[|raw| - stride - 1] != 0 then None
    else
      match Unfilter(raw[..|raw| - stride - 1], stride, height - 1)
      case None => None
      case Some(rows) => Some(rows + raw[|raw| - stride..])
  }

  function ReadPng(bytes: seq<Byte>, inflate: seq<Byte> -> Option<seq<Byte>>, crc: Checksum): Option<Image> {
    if |bytes| < 8 || bytes[..8] != SIGNATURE then None
    else
      match ReadChunks(bytes[8..], crc)
      case None => None
      case Some(cs) =>
        if |cs| != 3 || cs[0].kind != IHDR || |cs[0].data| != 13 || cs[0].data[8..] != [8, 2, 0, 0, 0]
           || cs[1].kind != IDAT || cs[2].data != []
        then None
        else
          var width, height := ReadU32(cs[0].data[..4]), ReadU32(cs[0].data[4..8]);
          match inflate(cs[1].data)
          case None => None
          case Some(raw) =>
            match Unfilter(raw, width * 3, height)
            case None => None
            case Some(rgb) => Some(Image(width, height, rgb))
  }

  lemma ChunkReadsBack(kind: seq<Byte>, data: seq<Byte>, rest: seq<Byte>, crc: Checksum)
    requires |kind| == 4 && |data| < 0x1_0000_0000
    ensures ReadChunk(ChunkBytes(kind, data, crc) + rest, crc) == Some((ChunkRecord(kind, data), rest))
  {
    var n := |data|;
    var s := ChunkBytes(kind, data, crc) + rest;
    U32ReadsBack(n);
    U32ReadsBack(crc(kind + data));
    assert s[..4] == U32(n);
    assert s[4..8] == kind && s[8..8 + n] == data && s[4..8 + n] == kind + data;
    assert s[8 + n..12 + n] == U32(crc(kind + data));
    assert s[12 + n..] == rest;
  }

  lemma OneMoreRow(front: seq<Byte>, row: seq<Byte>, stride: nat, height: nat, rows: seq<Byte>)
    requires |row| == stride && Unfilter(front, stride, height) == Some(rows)
    ensures Unfilter(front + [0] + row, stride, height + 1) == Some(rows + row)
  {
    var raw := front + [0] + row;
    assert raw[..|raw| - stride - 1] == front && raw[|raw| - stride..] == row;
  }

  lemma {:induction false} ScanlinesReadBack(rgb: seq<Byte>, stride: nat, y: nat)
    requires y * stride <= |rgb|
    ensures Unfilter(Scanlines(rgb, stride, y), stride, y) == Some(rgb[..y * stride])
  {
    if y > 0 {
      RowBounds(stride, y - 1);
      var from, to := (y - 1) * stride, y * stride;
      ScanlinesReadBack(rgb, stride, y - 1);
      NextScanline(rgb, stride, y - 1);
      NextRowReadBack(rgb, from, to, Scanlines(rgb, stride, y - 1), stride, y - 1);
    }
  }

  lemma NextRowReadBack(rgb: seq<Byte>, from: nat, to: nat, front: seq<Byte>, stride: nat, y: nat)
    requires to == from + stride <= |rgb| && Unfilter(front, stride, y) == Some(rgb[..from])
    ensures Unfilter(front + [0] + rgb[from..to], stride, y + 1) == Some(rgb[..to])
  {
    OneMoreRow(front, rgb[from..to], stride, y, rgb[..from]);
    assert rgb[..to] == rgb[..from] + rgb[from..to];
  }

  lemma OneMoreChunk(s: seq<Byte>, c: ChunkRecord, rest: seq<Byte>, cs: seq<ChunkRecord>, crc: Checksum)
    requires ReadChunk(s, crc) == Some((c, rest)) && c.kind != IEND && ReadChunks(rest, crc) == Some(cs)
    ensures ReadChunks(s, crc) == Some([c] + cs)
  {
  }

  lemma LastChunk(s: seq<Byte>, c: ChunkRecord, crc: Checksum)
    requires ReadChunk(s, crc) == Some((c, [])) && c.kind == IEND
    ensures ReadChunks(s, crc) == Some([c])
  {
  }

  /** A file body holding three chunks, the last of them IEND, reads as those three. */
  lemma ThreeChunks(s: seq<Byte>, a: ChunkRecord, s1: seq<Byte>, b: ChunkRecord, s2: seq<Byte>, end: ChunkRecord,
                    crc: Checksum)
    requires ReadChunk(s, crc) == Some((a, s1)) && a.kind != IEND
    requires ReadChunk(s1, crc) == Some((b, s2)) && b.kind != IEND
    requires ReadChunk(s2, crc) == Some((end, [])) && end.kind == IEND
    ensures ReadChunks(s, crc) == Some([a, b, end])
  {
    LastChunk(s2, end, crc);
    OneMoreChunk(s1, b, s2, [end], crc);
    OneMoreChunk(s, a, s1, [b] + [end], crc);
    assert [a] + ([b] + [end]) == [a, b, end];
  }

  lemma HeaderReadsBack(width: nat, height: nat)
    requires width < 0x1_0000_0000 && height < 0x1_0000_0000
    ensures var header := HeaderData(width, height);
            && |header| == 13 && ReadU32(header[..4]) == width && ReadU32(header[4..8]) == height
            && header[8..] == [8, 2, 0, 0, 0]
  {
    var header := HeaderData(width, height);
    U32ReadsBack(width);
    U32ReadsBack(height);
    assert header[..4] == U32(width) && header[4..8] == U32(height);
  }

  /** What a reader makes of a file of three readable chunks. */
  lemma FileReadsBack(x: seq<Byte>, y: seq<Byte>, z: seq<Byte>,
                      header: ChunkRecord, data: ChunkRecord, end: ChunkRecord,
                      width: nat, height: nat, raw: seq<Byte>, rgb: seq<Byte>, inflate: seq<Byte> -> Option<seq<Byte>>,
                      crc: Checksum)
    requires ReadChunk(x + (y + z), crc) == Some((header, y + z)) && header.kind == IHDR
    requires ReadChunk(y + z, crc) == Some((data, z)) && data.kind == IDAT && inflate(data.data) == Some(raw)
    requires ReadChunk(z, crc) == Some((end, [])) && end.kind == IEND && end.data == []
    requires |header.data| == 13 && header.data[8..] == [8, 2, 0, 0, 0]
    requires ReadU32(header.data[..4]) == width && ReadU32(header.data[4..8]) == height
    requires Unfilter(raw, width * 3, height) == Some(rgb)
    ensures ReadPng(FileBytes(x, y, z), inflate, crc) == Some(Image(width, height, rgb))
  {
    var body := x + (y + z);
    ThreeChunks(body, header, y + z, data, z, end, crc);
    FileStart(x, y, z);
  }

  lemma FileStart(x: seq<Byte>, y: seq<Byte>, z: seq<Byte>)
    ensures |FileBytes(x, y, z)| >= 8 && FileBytes(x, y, z)[..8] == SIGNATURE && FileBytes(x, y, z)[8..] == x + (y + z)
  {
  }

  predicate Encodable(c: ChunkRecord) {
    |c.kind| == 4 && |c.data| < 0x1_0000_0000
  }

  function Encoded(c: ChunkRecord, crc: Checksum): seq<Byte>
    requires Encodable(c)
  {
    ChunkBytes(c.kind, c.data, crc)
  }

  lemma RecordsReadBack(header: ChunkRecord, data: ChunkRecord, end: ChunkRecord, width: nat, height: nat,
                        raw: seq<Byte>, rgb: seq<Byte>, inflate: seq<Byte> -> Option<seq<Byte>>, crc: Checksum)
    requires Encodable(header) && Encodable(data) && Encodable(end)
    requires header.kind == IHDR && data.kind == IDAT && end.kind == IEND
    requires inflate(data.data) == Some(raw) && end.data == []
    requires |header.data| == 13 && header.data[8..] == [8, 2, 0, 0, 0]
    requires ReadU32(header.data[..4]) == width && ReadU32(header.data[4..8]) == height
    requires Unfilter(raw, width * 3, height) == Some(rgb)
    ensures ReadPng(FileBytes(Encoded(header, crc), Encoded(data, crc), Encoded(end, crc)), inflate, crc)
         == Some(Image(width, height, rgb))
  {
    var x, y, z := Encoded(header, crc), Encoded(data, crc), Encoded(end, crc);
    ChunkReadsBack(end.kind, end.data, [], crc);
    assert z + [] == z;
    ChunkReadsBack(data.kind, data.data, z, crc);
    ChunkReadsBack(header.kind, header.data, y + z, crc);
    FileReadsBack(x, y, z, header, data, end, width, height, raw, rgb, inflate, crc);
  }

  lemma RowsReadBack(header: seq<Byte>, width: nat, height: nat, raw: seq<Byte>, rgb: seq<Byte>, compressed: seq<Byte>,
                     inflate: seq<Byte> -> Option<seq<Byte>>, crc: Checksum)
    requires |header| == 13 && header[8..] == [8, 2, 0, 0, 0]
    requires ReadU32(header[..4]) == width && ReadU32(header[4..8]) == height
    requires |compressed| < 0x1_0000_0000 && inflate(compressed) == Some(raw)
    requires Unfilter(raw, width * 3, height) == Some(rgb)
    ensures ReadPng(FileBytes(ChunkBytes(IHDR, header, crc), ChunkBytes(IDAT, compressed, crc),
                              ChunkBytes(IEND, [], crc)), inflate, crc)
         == Some(Image(width, height, rgb))
  {
    RecordsReadBack(ChunkRecord(IHDR, header), ChunkRecord(IDAT, compressed), ChunkRecord(IEND, []),
                    width, height, raw, rgb, inflate, crc);
  }

  lemma RawReadsBack(width: nat, height: nat, raw: seq<Byte>, rgb: seq<Byte>, compressed: seq<Byte>,
                     inflate: seq<Byte> -> Option<seq<Byte>>, crc: Checksum)
    requires width < 0x1_0000_0000 && height < 0x1_0000_0000
    requires |compressed| < 0x1_0000_0000 && inflate(compressed) == Some(raw)
    requires Unfilter(raw, width * 3, height) == Some(rgb)
    ensures ReadPng(PngBytes(width, height, compressed, crc), inflate, crc) == Some(Image(width, height, rgb))
  {
    HeaderReadsBack(width, height);
    RowsReadBack(HeaderData(width, height), width, height, raw, rgb, compressed, inflate, crc);
  }

  /** Reading an encoded file gives the size and the original pixel bytes back, whatever checksum both sides use. */
  lemma ReadsBack(width: nat, height: nat, rgb: seq<Byte>, compressed: seq<Byte>,
                  inflate: seq<Byte> -> Option<seq<Byte>>, crc: Checksum)
    requires width < 0x1_0000_0000 && height < 0x1_0000_0000 && height * (width * 3) <= |rgb|
    requires |compressed| < 0x1_0000_0000 && inflate(compressed) == Some(Scanlines(rgb, width * 3, height))
    ensures ReadPng(PngBytes(width, height, compressed, crc), inflate, crc)
         == Some(Image(width, height, rgb[..height * (width * 3)]))
  {
    ScanlinesReadBack(rgb, width * 3, height);
    RawReadsBack(width, height, Scanlines(rgb, width * 3, height), rgb[..height * (width * 3)], compressed,
                 inflate, crc);
  }
}
