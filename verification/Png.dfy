/** `write_png` and a reader for what it writes.  CRC-32 and zlib are parameters: any
    checksum, and any pair where decompressing undoes compressing. */
module Png {
  import opened Wrappers
  import opened ByteStrings

  const SIGNATURE: Bytes := [0x89, 0x50, 0x4E, 0x47, 0x0D, 0x0A, 0x1A, 0x0A]
  const IHDR: Bytes := [0x49, 0x48, 0x44, 0x52]
  const IDAT: Bytes := [0x49, 0x44, 0x41, 0x54]
  const IEND: Bytes := [0x49, 0x45, 0x4E, 0x44]
  const MAX_LENGTH := 0x7FFF_FFFF

  /** `struct.pack('>I', n)` */
  function Pack(n: int): (b: Bytes)
    requires 0 <= n < TWO_32
    ensures |b| == 4
  {
    [n / 0x100_0000, n / 0x1_0000 % 0x100, n / 0x100 % 0x100, n % 0x100]
  }

  function Unpack(b: Bytes): (n: int)
    requires |b| == 4
    ensures 0 <= n < TWO_32
  {
    var b0: int, b1: int, b2: int, b3: int := b[0], b[1], b[2], b[3];
    b0 * 0x100_0000 + b1 * 0x1_0000 + b2 * 0x100 + b3
  }

  lemma PackRoundTrip(n: int)
    requires 0 <= n < TWO_32
    ensures Unpack(Pack(n)) == n
  {
    var q1, q2, q3 := n / 0x100, n / 0x1_0000, n / 0x100_0000;
    assert n == q1 * 0x100 + n % 0x100;
    assert q1 / 0x100 == q2 && q2 / 0x100 == q3;
    assert q1 == q2 * 0x100 + q1 % 0x100;
    assert q2 == q3 * 0x100 + q2 % 0x100;
  }

  // ---------- Writing ----------

  function Chunk(kind: Bytes, data: Bytes, crc: Bytes -> int): Bytes
    requires |data| < TWO_32
  {
    Pack(|data|) + (kind + data) + Pack(crc(kind + data) % TWO_32)
  }

  function Header(w: int, h: int): Bytes
    requires 0 <= w < TWO_32 && 0 <= h < TWO_32
  {
    Pack(w) + Pack(h) + [8, 2, 0, 0, 0]
  }

  /** The first `h` scanlines of `s` bytes, each after a filter byte 0. */
  function Scanlines(pixels: Bytes, s: nat, h: nat): (raw: Bytes)
    requires s * h <= |pixels|
    ensures |raw| == h * (s + 1)
  {
    if h == 0 then []
    else
      RowBounds(s, h);
      Scanlines(pixels, s, h - 1) + [0] + pixels[s * (h - 1)..s * h]
  }

  lemma RowBounds(s: nat, h: nat)
    requires h > 0
    ensures 0 <= s * (h - 1) && s * h == s * (h - 1) + s && h * (s + 1) == (h - 1) * (s + 1) + s + 1
  {}

  /** The file: signature, IHDR, one IDAT, IEND. */
  function PngBytes(w: nat, h: nat, compressed: Bytes, crc: Bytes -> int): Bytes
    requires w < TWO_32 && h < TWO_32 && |compressed| < TWO_32
  {
    SIGNATURE + (Chunk(IHDR, Header(w, h), crc) + (Chunk(IDAT, compressed, crc) + Chunk(IEND, [], crc)))
  }

  /** The bytes of a chunk: length, type, data and the checksum of type and data. */
  lemma ChunkLayout(kind: Bytes, data: Bytes, crc: Bytes -> int)
    requires |kind| == 4 && |data| < TWO_32
    ensures var b := Chunk(kind, data, crc);
            && |b| == 12 + |data| && Unpack(b[..4]) == |data| && b[4..8] == kind && b[8..8 + |data|] == data
            && Unpack(b[8 + |data|..]) == crc(kind + data) % TWO_32
  {
    var b := Chunk(kind, data, crc);
    assert b[..4] == Pack(|data|) && b[8 + |data|..] == Pack(crc(kind + data) % TWO_32);
    PackRoundTrip(|data|);
    PackRoundTrip(crc(kind + data) % TWO_32);
  }

  /** Numbers are stored with the highest byte first. */
  lemma UnpackIs(b: Bytes)
    requires |b| == 4
    ensures Unpack(b) == ((b[0] as int * 256 + b[1] as int) * 256 + b[2] as int) * 256 + b[3] as int
  {}

  /** The file from its start: signature, header chunk, data chunk, end chunk. */
  lemma FileLayout(w: nat, h: nat, compressed: Bytes, crc: Bytes -> int)
    requires w < TWO_32 && h < TWO_32 && |compressed| < TWO_32
    ensures var f := PngBytes(w, h, compressed, crc);
            var n := |compressed|;
            && |f| == 57 + n
            && f[..8] == [137, 'P' as int, 'N' as int, 'G' as int, 13, 10, 26, 10]
            && f[12..16] == ['I' as int, 'H' as int, 'D' as int, 'R' as int]
            && Unpack(f[16..20]) == w && Unpack(f[20..24]) == h && f[24..29] == [8, 2, 0, 0, 0]
            && f[33..45 + n] == Chunk(['I' as int, 'D' as int, 'A' as int, 'T' as int], compressed, crc)
            && f[45 + n..] == Chunk(['I' as int, 'E' as int, 'N' as int, 'D' as int], [], crc)
  {
    var f := PngBytes(w, h, compressed, crc);
    var header, data, end := Chunk(IHDR, Header(w, h), crc), Chunk(IDAT, compressed, crc), Chunk(IEND, [], crc);
    ChunkLayout(IHDR, Header(w, h), crc);
    ChunkLayout(IDAT, compressed, crc);
    assert f[8..] == header + (data + end) && f[33..] == data + end;
    assert f[12..16] == header[4..8] && f[16..29] == header[8..21] == Header(w, h);
    assert f[16..20] == Pack(w) && f[20..24] == Pack(h) && f[24..29] == f[16..29][8..];
    PackRoundTrip(w);
    PackRoundTrip(h);
  }

  /** The loop that puts a filter byte before every row. */
  method FilterRows(w: nat, h: nat, pixels: Bytes) returns (raw: Bytes)
    requires |pixels| == w * 3 * h
    ensures raw == Scanlines(pixels, w * 3, h)
  {
    raw := [];
    for y := 0 to h
      invariant w * 3 * y <= |pixels|
      invariant raw == Scanlines(pixels, w * 3, y)
    {
      RowBounds(w * 3, y + 1);
      RowInside(w * 3, y + 1, h);
      RowStart(w, y);
      raw := raw + [0];
      var rowStart := y * w * 3;
      var rowEnd := rowStart + w * 3;
      raw := raw + pixels[rowStart..rowEnd];
    }
  }

  lemma RowStart(w: nat, y: nat)
    ensures y * w * 3 == w * 3 * y
  {
    assert y * w == w * y;
    assert w * 3 * y == 3 * (w * y);
  }

  lemma RowInside(s: nat, y: nat, h: nat)
    requires y <= h
    ensures s * y <= s * h
  {
    assert s * (h - y) >= 0;
    assert s * (h - y) == s * h - s * y;
  }

  /** The file, unless a field does not fit its four bytes (`struct.pack` raises then). */
  method WritePng(w: nat, h: nat, pixels: Bytes, crc: Bytes -> int, compress: Bytes -> Bytes)
    returns (file: Option<Bytes>)
    requires |pixels| == w * 3 * h
    ensures var compressed := compress(Scanlines(pixels, w * 3, h));
            file == if w < TWO_32 && h < TWO_32 && |compressed| < TWO_32
                    then Some(PngBytes(w, h, compressed, crc)) else None
  {
    var raw := FilterRows(w, h, pixels);
    var compressed := compress(raw);
    if w >= TWO_32 || h >= TWO_32 || |compressed| >= TWO_32 {
      return None;
    }
    var ihdr := Chunk(IHDR, Header(w, h), crc);
    var idat := Chunk(IDAT, compressed, crc);
    var iend := Chunk(IEND, [], crc);
    file := Some(SIGNATURE + (ihdr + (idat + iend)));
  }

  // ---------- Reading ----------

  datatype RawChunk = RawChunk(kind: Bytes, data: Bytes)
  datatype Image = Image(w: nat, h: nat, pixels: Bytes)
  datatype Next = Bad | Next(chunk: RawChunk, rest: Bytes)

  /** One chunk (section 3.2 of RFC 2083): length, type, data, checksum over type and data. */
  function ReadChunk(s: Bytes, crc: Bytes -> int): (n: Next)
    ensures n.Next? ==> |n.rest| < |s|
  {
    if |s| < 12 then Bad else
    var length := Unpack(s[..4]);
    if length > MAX_LENGTH || |s| < 12 + length then Bad
    else if Unpack(s[8 + length..12 + length]) != crc(s[4..8 + length]) % TWO_32 then Bad
    else Next(RawChunk(s[4..8], s[8..8 + length]), s[12 + length..])
  }

  /** All chunks up to IEND, which must be empty and last. */
  function ReadChunks(s: Bytes, crc: Bytes -> int): Option<seq<RawChunk>>
    decreases |s|
  {
    match ReadChunk(s, crc)
    case Bad => None
    case Next(c, rest) =>
      if c.kind == IEND then (if c.data == [] && rest == [] then Some([]) else None)
      else match ReadChunks(rest, crc)
        case None => None
        case Some(cs) => Some([c] + cs)
  }

  /** The data of the IDAT chunks, in order (section 4.1.3 of RFC 2083). */
  function ImageData(cs: seq<RawChunk>): Bytes {
    if cs == [] then []
    else if cs[0].kind == IDAT then cs[0].data + ImageData(cs[1..])
    else ImageData(cs[1..])
  }

  /** Scanlines with filter type 0 (section 6.2 of RFC 2083). */
  function Unfilter(raw: Bytes, s: nat, h: nat): Option<Bytes> {
    if h == 0 then (if raw == [] then Some([]) else None)
    else if |raw| < s + 1 then None
    else
      var cut := |raw| - (s + 1);
      if raw[cut] != 0 then None
      else match Unfilter(raw[..cut], s, h - 1)
        case None => None
        case Some(rows) => Some(rows + raw[cut + 1..])
  }

  function Decode(w: nat, h: nat, raw: Bytes): Option<Image> {
    match Unfilter(raw, w * 3, h)
    case None => None
    case Some(pixels) => Some(Image(w, h, pixels))
  }

  /** An 8-bit truecolour, non-interlaced image; zero dimensions are invalid
      (section 4.1.1 of RFC 2083). */
  function ReadPng(file: Bytes, crc: Bytes -> int, decompress: Bytes -> Bytes): Option<Image> {
    if !(SIGNATURE <= file) then None
    else match ReadChunks(file[8..], crc)
      case None => None
      case Some(cs) =>
        if cs == [] || cs[0].kind != IHDR || |cs[0].data| != 13 then None
        else
          var d := cs[0].data;
          var w, h := Unpack(d[..4]), Unpack(d[4..8]);
          if d[8..] != [8, 2, 0, 0, 0] || w == 0 || h == 0 then None
          else Decode(w, h, decompress(ImageData(cs[1..])))
  }

  // ---------- Reading undoes writing ----------

  lemma ChunkRoundTrip(kind: Bytes, data: Bytes, rest: Bytes, crc: Bytes -> int)
    requires |kind| == 4 && |data| <= MAX_LENGTH
    ensures ReadChunk(Chunk(kind, data, crc) + rest, crc) == Next(RawChunk(kind, data), rest)
  {
    var s, n := Chunk(kind, data, crc) + rest, |data|;
    var sum := crc(kind + data) % TWO_32;
    assert s[..4] == Pack(n);
    PackRoundTrip(n);
    assert s[4..8 + n] == kind + data;
    assert s[8 + n..12 + n] == Pack(sum);
    PackRoundTrip(sum);
    assert s[4..8] == kind && s[8..8 + n] == data && s[12 + n..] == rest;
  }

  lemma {:induction false} UnfilterRoundTrip(pixels: Bytes, s: nat, h: nat)
    requires s * h <= |pixels|
    ensures Unfilter(Scanlines(pixels, s, h), s, h) == Some(pixels[..s * h])
  {
    if h > 0 {
      RowBounds(s, h);
      UnfilterRoundTrip(pixels, s, h - 1);
      var raw, front := Scanlines(pixels, s, h), Scanlines(pixels, s, h - 1);
      var cut := |raw| - (s + 1);
      assert cut == |front| && raw[..cut] == front && raw[cut] == 0;
      assert raw[cut + 1..] == pixels[s * (h - 1)..s * h];
      assert pixels[..s * (h - 1)] + pixels[s * (h - 1)..s * h] == pixels[..s * h];
    }
  }

  lemma ReadOneMore(kind: Bytes, data: Bytes, rest: Bytes, cs: seq<RawChunk>, crc: Bytes -> int)
    requires |kind| == 4 && |data| <= MAX_LENGTH && kind != IEND && ReadChunks(rest, crc) == Some(cs)
    ensures ReadChunks(Chunk(kind, data, crc) + rest, crc) == Some([RawChunk(kind, data)] + cs)
  {
    ChunkRoundTrip(kind, data, rest, crc);
  }

  lemma ReadEnd(crc: Bytes -> int)
    ensures ReadChunks(Chunk(IEND, [], crc), crc) == Some([])
  {
    ChunkRoundTrip(IEND, [], [], crc);
    assert Chunk(IEND, [], crc) + [] == Chunk(IEND, [], crc);
  }

  lemma ChunksRoundTrip(header: Bytes, compressed: Bytes, crc: Bytes -> int)
    requires |header| <= MAX_LENGTH && |compressed| <= MAX_LENGTH
    ensures ReadChunks(Chunk(IHDR, header, crc) + (Chunk(IDAT, compressed, crc) + Chunk(IEND, [], crc)), crc)
         == Some([RawChunk(IHDR, header)] + [RawChunk(IDAT, compressed)])
  {
    ReadEnd(crc);
    assert IDAT[1] != IEND[1] && IHDR[1] != IEND[1];
    ReadOneMore(IDAT, compressed, Chunk(IEND, [], crc), [], crc);
    assert [RawChunk(IDAT, compressed)] + [] == [RawChunk(IDAT, compressed)];
    ReadOneMore(IHDR, header, Chunk(IDAT, compressed, crc) + Chunk(IEND, [], crc), [RawChunk(IDAT, compressed)], crc);
  }

  lemma HeaderFields(w: int, h: int)
    requires 0 <= w < TWO_32 && 0 <= h < TWO_32
    ensures var d := Header(w, h);
            |d| == 13 && Unpack(d[..4]) == w && Unpack(d[4..8]) == h && d[8..] == [8, 2, 0, 0, 0]
  {
    var d := Header(w, h);
    assert d[..4] == Pack(w) && d[4..8] == Pack(h);
    PackRoundTrip(w);
    PackRoundTrip(h);
  }

  /** Reading a signature followed by an IHDR, one IDAT and IEND. */
  lemma ReadImage(body: Bytes, header: Bytes, compressed: Bytes, crc: Bytes -> int, decompress: Bytes -> Bytes)
    requires ReadChunks(body, crc) == Some([RawChunk(IHDR, header)] + [RawChunk(IDAT, compressed)])
    requires |header| == 13 && header[8..] == [8, 2, 0, 0, 0]
    ensures ReadPng(SIGNATURE + body, crc, decompress)
         == if Unpack(header[..4]) == 0 || Unpack(header[4..8]) == 0 then None
            else Decode(Unpack(header[..4]), Unpack(header[4..8]), decompress(compressed))
  {
    assert (SIGNATURE + body)[8..] == body;
    var cs := [RawChunk(IHDR, header)] + [RawChunk(IDAT, compressed)];
    assert cs[1..] == [RawChunk(IDAT, compressed)];
    assert [RawChunk(IDAT, compressed)][1..] == [];
    assert ImageData([RawChunk(IDAT, compressed)]) == compressed + ImageData([]) == compressed;
  }

  /** The reader recovers width, height and the exact pixel buffer from the written bytes,
      exactly when neither dimension is zero. */
  lemma PngRoundTrip(w: nat, h: nat, pixels: Bytes, crc: Bytes -> int, compress: Bytes -> Bytes,
                     decompress: Bytes -> Bytes)
    requires |pixels| == w * 3 * h && w < TWO_32 && h < TWO_32
    requires |compress(Scanlines(pixels, w * 3, h))| <= MAX_LENGTH
    requires forall d :: decompress(compress(d)) == d
    ensures ReadPng(PngBytes(w, h, compress(Scanlines(pixels, w * 3, h)), crc), crc, decompress)
         == if w > 0 && h > 0 then Some(Image(w, h, pixels)) else None
  {
    var raw := Scanlines(pixels, w * 3, h);
    HeaderFields(w, h);
    ChunksRoundTrip(Header(w, h), compress(raw), crc);
    var body := Chunk(IHDR, Header(w, h), crc) + (Chunk(IDAT, compress(raw), crc) + Chunk(IEND, [], crc));
    ReadImage(body, Header(w, h), compress(raw), crc, decompress);
    UnfilterRoundTrip(pixels, w * 3, h);
    assert pixels[..w * 3 * h] == pixels;
  }
}
