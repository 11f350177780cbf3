/** The PNG writer of the image scripts, and a reader of sections 3 and 4.1 of RFC 2083 that inverts it.
    Compression is a parameter: any deflate/inflate pair in which inflate undoes deflate. */
module Png {
  import opened Gf2
  import opened Crc32
  import opened CrcTheory
  import opened Wrappers

  const WORD: int := 0x1_0000_0000
  /** The largest chunk length, width and height that RFC 2083 admits, plus one. */
  const LIMIT: int := 0x8000_0000

  // ---------- what the writer produces ----------

  function Place(on: bool, weight: Byte): Byte {
    if on then weight else 0
  }

  function Digit(on: bool): nat {
    if on then 1 else 0
  }

  /** Storing a number in a byte buffer keeps it modulo 256. */
  function ToByte(v: int): Byte {
    FromDigits(v % 2 == 1, v / 2 % 2 == 1, v / 4 % 2 == 1, v / 8 % 2 == 1,
               v / 16 % 2 == 1, v / 32 % 2 == 1, v / 64 % 2 == 1, v / 128 % 2 == 1)
  }

  function FromDigits(d0: bool, d1: bool, d2: bool, d3: bool, d4: bool, d5: bool, d6: bool, d7: bool): Byte {
    Place(d0, 0x01) | Place(d1, 0x02) | Place(d2, 0x04) | Place(d3, 0x08)
    | Place(d4, 0x10) | Place(d5, 0x20) | Place(d6, 0x40) | Place(d7, 0x80)
  }

  function FromByte(b: Byte): nat {
    Digit(BitOf(b, 0)) + 2 * Digit(BitOf(b, 1)) + 4 * Digit(BitOf(b, 2)) + 8 * Digit(BitOf(b, 3))
    + 16 * Digit(BitOf(b, 4)) + 32 * Digit(BitOf(b, 5)) + 64 * Digit(BitOf(b, 6)) + 128 * Digit(BitOf(b, 7))
  }

  function BigEndian(v: nat): (r: seq<Byte>)
    ensures |r| == 4
  {
    [ToByte(v / 0x100_0000), ToByte(v / 0x1_0000), ToByte(v / 0x100), ToByte(v)]
  }

  function ReadBigEndian(s: seq<Byte>): nat
    requires |s| == 4
  {
    FromByte(s[0]) * 0x100_0000 + FromByte(s[1]) * 0x1_0000 + FromByte(s[2]) * 0x100 + FromByte(s[3])
  }

  function CrcField(c: bv32): (r: seq<Byte>)
    ensures |r| == 4
  {
    [Byte3(c), Byte2(c), Byte1(c), Byte0(c)]
  }

  function Ascii(s: string): (r: seq<Byte>)
    ensures |r| == |s|
  {
    seq(|s|, i requires 0 <= i < |s| => ToByte(s[i] as int))
  }

  function ChunkBytes(kind: seq<Byte>, data: seq<Byte>): seq<Byte> {
    BigEndian(|data|) + kind + data + CrcField(Crc(kind + data))
  }

  const SIGNATURE: seq<Byte> := [0x89, 0x50, 0x4e, 0x47, 0x0d, 0x0a, 0x1a, 0x0a]

  function Header(w: nat, h: nat): (r: seq<Byte>)
    ensures |r| == 13
  {
    BigEndian(w) + BigEndian(h) + [8, 2, 0, 0, 0]
  }

  datatype Pixel = Pixel(r: Byte, g: Byte, b: Byte)

  function PixelBytes(row: seq<Pixel>): (r: seq<Byte>)
    ensures |r| == 3 * |row|
  {
    if row == [] then []
    else PixelBytes(row[..|row| - 1]) + [row[|row| - 1].r, row[|row| - 1].g, row[|row| - 1].b]
  }

  /** A scanline is its filter byte, which is 0, and its pixels. */
  function Scanline(row: seq<Pixel>): (r: seq<Byte>)
    ensures |r| == 1 + 3 * |row|
  {
    [0] + PixelBytes(row)
  }

  function Scanlines(rows: seq<seq<Pixel>>): seq<Byte> {
    if rows == [] then [] else Scanline(rows[0]) + Scanlines(rows[1..])
  }

  datatype Image = Image(w: nat, h: nat, rows: seq<seq<Pixel>>)

  function Solid(w: nat, h: nat, p: Pixel): Image {
    Image(w, h, seq(h, _ => seq(w, _ => p)))
  }

  function Colour(r: int, g: int, b: int): Pixel {
    Pixel(ToByte(r), ToByte(g), ToByte(b))
  }

  function FileBytes(img: Image, deflate: seq<Byte> -> seq<Byte>): seq<Byte> {
    SIGNATURE
    + ChunkBytes(Ascii("IHDR"), Header(img.w, img.h))
    + ChunkBytes(Ascii("IDAT"), deflate(Scanlines(img.rows)))
    + ChunkBytes(Ascii("IEND"), [])
  }

  // ---------- the writer ----------

  /** Buffer.writeUInt32BE: a value that is not an unsigned 32-bit integer is refused and nothing is written. */
  method WriteUInt32BE(buf: array<Byte>, v: int, at: nat) returns (ok: bool)
    requires at + 4 <= buf.Length
    modifies buf
    ensures ok == (0 <= v < 0x1_0000_0000)
    ensures ok ==> buf[at..at + 4] == BigEndian(v)
    ensures forall i | 0 <= i < buf.Length && !(ok && at <= i < at + 4) :: buf[i] == old(buf[i])
  {
    if v < 0 || v >= WORD {
      return false;
    }
    buf[at] := ToByte(v / 0x100_0000);
    buf[at + 1] := ToByte(v / 0x1_0000);
    buf[at + 2] := ToByte(v / 0x100);
    buf[at + 3] := ToByte(v);
    assert buf[at..at + 4] == [buf[at], buf[at + 1], buf[at + 2], buf[at + 3]];
    return true;
  }

  method Alloc(n: nat) returns (buf: array<Byte>)
    ensures fresh(buf) && buf.Length == n && forall i | 0 <= i < n :: buf[i] == 0
  {
    buf := new Byte[n](_ => 0);
  }

  method CrcBuffer(c: bv32) returns (crc: array<Byte>)
    ensures fresh(crc) && crc[..] == CrcField(c)
  {
    crc := new Byte[4];
    crc[0], crc[1], crc[2], crc[3] := Byte3(c), Byte2(c), Byte1(c), Byte0(c);
    assert crc[..] == [crc[0], crc[1], crc[2], crc[3]];
  }

  method CrcOf(body: seq<Byte>) returns (c: bv32)
    ensures c == Crc(body)
  {
    var buf := new Byte[|body|](i requires 0 <= i < |body| => body[i]);
    assert buf[..] == body;
    c := ComputeCrc(buf);
  }

  method PngChunk(kind: string, data: seq<Byte>) returns (chunk: Option<seq<Byte>>)
    ensures chunk == if |data| < 0x1_0000_0000 then Some(ChunkBytes(Ascii(kind), data)) else None
  {
    hide ToByte, Crc, CrcField;
    var t := Ascii(kind);
    var len := Alloc(4);
    var ok := WriteUInt32BE(len, |data|, 0);
    if !ok {
      return None;
    }
    assert len[..] == len[0..0 + 4];
    var c := CrcOf(t + data);
    var crc := CrcBuffer(c);
    return Some(len[..] + t + data + crc[..]);
  }

  lemma {:induction false} PixelBytesAt(row: seq<Pixel>, x: nat)
    requires x < |row|
    ensures PixelBytes(row)[3 * x] == row[x].r && PixelBytes(row)[3 * x + 1] == row[x].g
    ensures PixelBytes(row)[3 * x + 2] == row[x].b
  {
    if x < |row| - 1 {
      PixelBytesAt(row[..|row| - 1], x);
    }
  }

  lemma {:induction false} NoPixels()
    ensures PixelBytes([]) == []
  {
  }

  lemma {:induction false} OnePixelMore(row: seq<Pixel>, n: nat)
    requires |row| == n + 1
    ensures PixelBytes(row) == PixelBytes(row[..n]) + [row[n].r, row[n].g, row[n].b]
  {
  }

  /** One row buffer, filled pixel by pixel. */
  method SolidRow(w: nat, r: int, g: int, b: int) returns (row: array<Byte>)
    ensures fresh(row) && row[..] == Scanline(seq(w, _ => Colour(r, g, b)))
  {
    hide ToByte, PixelBytes;
    ghost var p := Colour(r, g, b);
    row := Alloc(1 + w * 3);
    NoPixels();
    for x := 0 to w
      invariant row[..1 + x * 3] == Scanline(seq(x, _ => p))
    {
      row[1 + x * 3] := ToByte(r);
      row[2 + x * 3] := ToByte(g);
      row[3 + x * 3] := ToByte(b);
      ghost var next := seq(x + 1, _ => p);
      assert next[..x] == seq(x, _ => p);
      OnePixelMore(next, x);
      assert row[..1 + (x + 1) * 3] == row[..1 + x * 3] + [p.r, p.g, p.b];
    }
    assert row[..1 + w * 3] == row[..];
  }

  lemma {:induction false} ScanlinesAppend(rows: seq<seq<Pixel>>, row: seq<Pixel>)
    ensures Scanlines(rows + [row]) == Scanlines(rows) + Scanline(row)
  {
    if rows == [] {
      assert rows + [row] == [row];
    } else {
      assert (rows + [row])[1..] == rows[1..] + [row];
      ScanlinesAppend(rows[1..], row);
    }
  }

  method HeaderBuffer(w: int, h: int) returns (ihdr: Option<array<Byte>>)
    ensures ihdr.Some? <==> 0 <= w < WORD && 0 <= h < WORD
    ensures ihdr.Some? ==> ihdr.value[..] == Header(w, h)
  {
    hide ToByte;
    var buf := Alloc(13);
    var ok := WriteUInt32BE(buf, w, 0);
    if !ok {
      return None;
    }
    ghost var first := buf[0..0 + 4];
    ok := WriteUInt32BE(buf, h, 4);
    if !ok {
      return None;
    }
    ghost var second := buf[4..4 + 4];
    buf[8] := 8;
    buf[9] := 2;
    assert buf[0..4] == BigEndian(w) by {
      assert forall i | 0 <= i < 4 :: buf[i] == first[i];
    }
    assert buf[4..8] == BigEndian(h) by {
      assert forall i | 0 <= i < 4 :: buf[4 + i] == second[i];
    }
    assert buf[..] == buf[0..4] + buf[4..8] + [buf[8], buf[9], buf[10], buf[11], buf[12]];
    return Some(buf);
  }

  method SolidRows(w: nat, h: nat, r: int, g: int, b: int) returns (rows: seq<Byte>)
    ensures rows == Scanlines(Solid(w, h, Colour(r, g, b)).rows)
  {
    ghost var line := seq(w, _ => Colour(r, g, b));
    rows := [];
    for y := 0 to h
      invariant rows == Scanlines(seq(y, _ => line))
    {
      var row := SolidRow(w, r, g, b);
      rows := rows + row[..];
      ScanlinesAppend(seq(y, _ => line), line);
      assert seq(y, _ => line) + [line] == seq(y + 1, _ => line);
    }
    assert Solid(w, h, Colour(r, g, b)).rows == seq(h, _ => line);
  }

  method SolidPng(w: int, h: int, r: int, g: int, b: int, deflate: seq<Byte> -> seq<Byte>)
    returns (file: Option<seq<Byte>>)
    ensures file.Some? <==>
      && 0 <= w < 0x1_0000_0000 && 0 <= h < 0x1_0000_0000
      && |deflate(Scanlines(Solid(w, h, Colour(r, g, b)).rows))| < 0x1_0000_0000
    ensures file.Some? ==> file.value == FileBytes(Solid(w, h, Colour(r, g, b)), deflate)
  {
    hide ChunkBytes, Ascii;
    var ihdr := HeaderBuffer(w, h);
    if ihdr.None? {
      return None;
    }
    var rows := SolidRows(w, h, r, g, b);
    var head := PngChunk("IHDR", ihdr.value[..]);
    var body := PngChunk("IDAT", deflate(rows));
    if body.None? {
      return None;
    }
    var end := PngChunk("IEND", []);
    return Some(SIGNATURE + head.value + body.value + end.value);
  }

  // ---------- a reader ----------

  datatype Chunk = Chunk(kind: seq<Byte>, data: seq<Byte>)

  /** One chunk (section 3.2 of RFC 2083) and the bytes that follow it, provided that its CRC matches. */
  function ReadChunk(s: seq<Byte>): (r: Option<(Chunk, seq<Byte>)>)
    ensures r.Some? ==> |r.value.1| < |s|
  {
    if |s| < 12 then None
    else
      var n := ReadBigEndian(s[..4]);
      if n >= LIMIT || |s| < 12 + n then None
      else if s[8 + n..12 + n] != CrcField(Crc(s[4..8 + n])) then None
      else Some((Chunk(s[4..8], s[8..8 + n]), s[12 + n..]))
  }

  /** All chunks up to the end of the file, with nothing left over. */
  function ReadChunks(s: seq<Byte>): Option<seq<Chunk>>
    decreases |s|
  {
    if s == [] then Some([])
    else
      match ReadChunk(s)
      case None => None
      case Some((c, rest)) =>
        match ReadChunks(rest)
        case None => None
        case Some(more) => Some([c] + more)
  }

  function ReadPixels(s: seq<Byte>): seq<Pixel>
    requires |s| % 3 == 0
  {
    if s == [] then [] else [Pixel(s[0], s[1], s[2])] + ReadPixels(s[3..])
  }

  /** h scanlines of w pixels each, all with filter byte 0, and nothing left over. */
  function ReadRows(s: seq<Byte>, w: nat, h: nat): Option<seq<seq<Pixel>>>
    decreases h
  {
    if h == 0 then (if s == [] then Some([]) else None)
    else if |s| < 1 + 3 * w || s[0] != 0 then None
    else
      match ReadRows(s[1 + 3 * w..], w, h - 1)
      case None => None
      case Some(more) => Some([ReadPixels(s[1..1 + 3 * w])] + more)
  }

  /** A reader for 8-bit RGB files of the three critical chunks (section 4.1 of RFC 2083). */
  function ReadFile(s: seq<Byte>, inflate: seq<Byte> -> Option<seq<Byte>>): Option<Image> {
    if |s| < 8 || s[..8] != SIGNATURE then None else ReadBody(ReadChunks(s[8..]), inflate)
  }

  function ReadBody(chunks: Option<seq<Chunk>>, inflate: seq<Byte> -> Option<seq<Byte>>): Option<Image> {
    match chunks
    case None => None
    case Some(cs) =>
      if |cs| != 3 || cs[0].kind != Ascii("IHDR") || cs[1].kind != Ascii("IDAT") || cs[2] != Chunk(Ascii("IEND"), [])
      then None
      else ReadImage(cs[0].data, inflate(cs[1].data))
  }

  function ReadImage(ihdr: seq<Byte>, raw: Option<seq<Byte>>): Option<Image> {
    if |ihdr| != 13 || ihdr[8..] != [8, 2, 0, 0, 0] || raw.None? then None
    else
      var w, h := ReadBigEndian(ihdr[..4]), ReadBigEndian(ihdr[4..8]);
      if !(0 < w < LIMIT && 0 < h < LIMIT) then None
      else
        match ReadRows(raw.value, w, h)
        case None => None
        case Some(rows) => Some(Image(w, h, rows))
  }

  // ---------- the reader inverts the writer ----------

  lemma {:induction false} DigitsOfByte(d0: bool, d1: bool, d2: bool, d3: bool, d4: bool, d5: bool, d6: bool, d7: bool)
    ensures var b := FromDigits(d0, d1, d2, d3, d4, d5, d6, d7);
            BitOf(b, 0) == d0 && BitOf(b, 1) == d1 && BitOf(b, 2) == d2 && BitOf(b, 3) == d3
            && BitOf(b, 4) == d4 && BitOf(b, 5) == d5 && BitOf(b, 6) == d6 && BitOf(b, 7) == d7
  {
  }

  lemma {:induction false} Halves(v: int, k: nat)
    requires k in {1, 2, 4, 8, 16, 32, 64, 128}
    ensures v / k == 2 * (v / (2 * k)) + Digit(v / k % 2 == 1)
  {
    assert v / k / 2 == v / (2 * k);
  }

  lemma {:induction false} EightDigits(
      v: int, high: int, d0: int, d1: int, d2: int, d3: int, d4: int, d5: int, d6: int, d7: int)
    requires 0 <= d0 <= 1 && 0 <= d1 <= 1 && 0 <= d2 <= 1 && 0 <= d3 <= 1
    requires 0 <= d4 <= 1 && 0 <= d5 <= 1 && 0 <= d6 <= 1 && 0 <= d7 <= 1
    requires v == 256 * high + d0 + 2 * d1 + 4 * d2 + 8 * d3 + 16 * d4 + 32 * d5 + 64 * d6 + 128 * d7
    ensures d0 + 2 * d1 + 4 * d2 + 8 * d3 + 16 * d4 + 32 * d5 + 64 * d6 + 128 * d7 == v % 256
  {
  }

  lemma {:induction false} BinaryDigits(v: int)
    ensures Digit(v % 2 == 1) + 2 * Digit(v / 2 % 2 == 1) + 4 * Digit(v / 4 % 2 == 1) + 8 * Digit(v / 8 % 2 == 1)
            + 16 * Digit(v / 16 % 2 == 1) + 32 * Digit(v / 32 % 2 == 1) + 64 * Digit(v / 64 % 2 == 1)
            + 128 * Digit(v / 128 % 2 == 1) == v % 256
  {
    Halves(v, 1);
    Halves(v, 2);
    Halves(v, 4);
    Halves(v, 8);
    Halves(v, 16);
    Halves(v, 32);
    Halves(v, 64);
    Halves(v, 128);
    EightDigits(v, v / 256, Digit(v % 2 == 1), Digit(v / 2 % 2 == 1), Digit(v / 4 % 2 == 1), Digit(v / 8 % 2 == 1),
                Digit(v / 16 % 2 == 1), Digit(v / 32 % 2 == 1), Digit(v / 64 % 2 == 1), Digit(v / 128 % 2 == 1));
  }

  lemma {:induction false} ByteRoundTrip(v: int)
    ensures FromByte(ToByte(v)) == v % 256
  {
    hide FromDigits, BitOf;
    BinaryDigits(v);
    DigitsOfByte(v % 2 == 1, v / 2 % 2 == 1, v / 4 % 2 == 1, v / 8 % 2 == 1,
                 v / 16 % 2 == 1, v / 32 % 2 == 1, v / 64 % 2 == 1, v / 128 % 2 == 1);
  }

  lemma {:induction false} Digits(v: nat)
    requires v < WORD
    ensures v == (v / 0x100_0000) % 256 * 0x100_0000 + (v / 0x1_0000) % 256 * 0x1_0000 + (v / 0x100) % 256 * 0x100 + v % 256
  {
    assert (v / 0x100_0000) % 256 == v / 0x100_0000;
    assert v / 0x1_0000 == (v / 0x100) / 0x100 && v / 0x100_0000 == (v / 0x1_0000) / 0x100;
  }

  lemma {:induction false} BigEndianRoundTrip(v: nat)
    requires v < WORD
    ensures ReadBigEndian(BigEndian(v)) == v
  {
    hide ToByte, FromByte;
    Digits(v);
    ReadDigits(ToByte(v / 0x100_0000), ToByte(v / 0x1_0000), ToByte(v / 0x100), ToByte(v));
    ByteRoundTrip(v / 0x100_0000);
    ByteRoundTrip(v / 0x1_0000);
    ByteRoundTrip(v / 0x100);
    ByteRoundTrip(v);
  }

  lemma {:induction false} ReadDigits(a: Byte, b: Byte, c: Byte, d: Byte)
    ensures ReadBigEndian([a, b, c, d])
         == FromByte(a) * 0x100_0000 + FromByte(b) * 0x1_0000 + FromByte(c) * 0x100 + FromByte(d)
  {
    hide FromByte;
  }

  lemma {:induction false} ChunkPieces(kind: seq<Byte>, data: seq<Byte>, crc: seq<Byte>, rest: seq<Byte>)
    requires |kind| == 4 && |crc| == 4
    ensures var s := BigEndian(|data|) + kind + data + crc + rest; var n := |data|;
            s[..4] == BigEndian(n) && s[4..8] == kind && s[8..8 + n] == data && s[4..8 + n] == kind + data
            && s[8 + n..12 + n] == crc && s[12 + n..] == rest
  {
    hide BigEndian;
  }

  /** Reading what was written gives the chunk back, and fails only when the length is over the format's limit. */
  lemma {:induction false} ChunkRoundTrip(kind: seq<Byte>, data: seq<Byte>, rest: seq<Byte>)
    requires |kind| == 4 && |data| < WORD
    ensures ReadChunk(ChunkBytes(kind, data) + rest)
         == if |data| < LIMIT then Some((Chunk(kind, data), rest)) else None
  {
    hide ReadBigEndian, BigEndian, Crc, CrcField;
    ChunkPieces(kind, data, CrcField(Crc(kind + data)), rest);
    BigEndianRoundTrip(|data|);
  }

  lemma {:induction false} PixelBytesCons(p: Pixel, row: seq<Pixel>)
    ensures PixelBytes([p] + row) == [p.r, p.g, p.b] + PixelBytes(row)
  {
    if row == [] {
      assert [p] + row == [p];
      assert [p][..0] == [];
    } else {
      var n := |row| - 1;
      assert ([p] + row)[..|row|] == [p] + row[..n];
      PixelBytesCons(p, row[..n]);
    }
  }

  lemma {:induction false} PixelsRoundTrip(row: seq<Pixel>)
    ensures ReadPixels(PixelBytes(row)) == row
  {
    if row != [] {
      assert row == [row[0]] + row[1..];
      PixelBytesCons(row[0], row[1..]);
      assert PixelBytes(row)[3..] == PixelBytes(row[1..]);
      PixelsRoundTrip(row[1..]);
    }
  }

  lemma {:induction false} RowParts(row: seq<Pixel>, more: seq<Byte>)
    ensures var s := Scanline(row) + more; var n := 1 + 3 * |row|;
            |s| >= n && s[0] == 0 && s[1..n] == PixelBytes(row) && s[n..] == more
  {
  }

  lemma {:induction false} RowsRoundTrip(rows: seq<seq<Pixel>>, w: nat)
    requires forall row | row in rows :: |row| == w
    ensures ReadRows(Scanlines(rows), w, |rows|) == Some(rows)
  {
    if rows != [] {
      hide Scanline, PixelBytes, ReadPixels;
      assert |rows[0]| == w && [rows[0]] + rows[1..] == rows;
      RowParts(rows[0], Scanlines(rows[1..]));
      PixelsRoundTrip(rows[0]);
      RowsRoundTrip(rows[1..], w);
    }
  }

  function Prepend(c: Chunk, more: Option<seq<Chunk>>): Option<seq<Chunk>> {
    if more.None? then None else Some([c] + more.value)
  }

  /** x is read as the chunk c, whatever follows it; a chunk over the limit is refused. */
  ghost predicate Encodes(x: seq<Byte>, c: Chunk) {
    forall rest :: ReadChunks(x + rest) == if |c.data| < LIMIT then Prepend(c, ReadChunks(rest)) else None
  }

  lemma {:induction false} ChunkEncodes(c: Chunk)
    requires |c.kind| == 4 && |c.data| < WORD
    ensures Encodes(ChunkBytes(c.kind, c.data), c)
  {
    forall rest
      ensures ReadChunks(ChunkBytes(c.kind, c.data) + rest) == if |c.data| < LIMIT then Prepend(c, ReadChunks(rest)) else None
    {
      ChunkRoundTrip(c.kind, c.data, rest);
      assert ChunkBytes(c.kind, c.data) + rest != [];
    }
  }

  lemma {:induction false} ChunksEncode(x: seq<Byte>, a: Chunk, rest: seq<Byte>)
    requires Encodes(x, a)
    ensures ReadChunks(x + rest) == if |a.data| < LIMIT then Prepend(a, ReadChunks(rest)) else None
  {
  }

  lemma {:induction false} ThreeOfThem(
      a: Chunk, b: Chunk, c: Chunk, r0: Option<seq<Chunk>>, r1: Option<seq<Chunk>>, r2: Option<seq<Chunk>>)
    requires |a.data| < LIMIT && |c.data| < LIMIT && r2 == Prepend(c, Some([]))
    requires r0 == Prepend(a, r1) && r1 == if |b.data| < LIMIT then Prepend(b, r2) else None
    ensures r0 == if |b.data| < LIMIT then Some([a, b, c]) else None
  {
    assert [a] + ([b] + ([c] + [])) == [a, b, c];
  }

  lemma {:induction false} ThreeChunks(a: Chunk, b: Chunk, c: Chunk, x: seq<Byte>, y: seq<Byte>, z: seq<Byte>)
    requires |a.data| < LIMIT && |c.data| < LIMIT
    requires Encodes(x, a) && Encodes(y, b) && Encodes(z, c)
    ensures ReadChunks(x + y + z) == if |b.data| < LIMIT then Some([a, b, c]) else None
  {
    hide Encodes;
    ChunksEncode(x, a, y + z);
    ChunksEncode(y, b, z);
    ChunksEncode(z, c, []);
    assert x + y + z == x + (y + z) && z + [] == z;
    ThreeOfThem(a, b, c, ReadChunks(x + (y + z)), ReadChunks(y + z), ReadChunks(z));
  }

  lemma {:induction false} HeaderRoundTrip(w: nat, h: nat)
    requires w < WORD && h < WORD
    ensures ReadBigEndian(Header(w, h)[..4]) == w && ReadBigEndian(Header(w, h)[4..8]) == h
    ensures Header(w, h)[8..] == [8, 2, 0, 0, 0]
  {
    hide ReadBigEndian, BigEndian;
    BigEndianRoundTrip(w);
    BigEndianRoundTrip(h);
    assert Header(w, h)[..4] == BigEndian(w) && Header(w, h)[4..8] == BigEndian(h);
  }

  ghost predicate Undoes(inflate: seq<Byte> -> Option<seq<Byte>>, deflate: seq<Byte> -> seq<Byte>) {
    forall s :: inflate(deflate(s)) == Some(s)
  }

  lemma {:induction false} ImageRoundTrip(img: Image)
    requires img.w < WORD && img.h < WORD && |img.rows| == img.h && forall row | row in img.rows :: |row| == img.w
    ensures ReadImage(Header(img.w, img.h), Some(Scanlines(img.rows)))
         == if 0 < img.w < LIMIT && 0 < img.h < LIMIT then Some(img) else None
  {
    hide ReadBigEndian, Header, Scanlines, ReadRows;
    HeaderRoundTrip(img.w, img.h);
    RowsRoundTrip(img.rows, img.w);
  }

  /** A file that was written decodes to the image it was written from, for every rectangle of pixels, exactly
      when its dimensions and its compressed data respect the limits of the format. The writer itself accepts
      more than that. */
  lemma {:induction false} FileRoundTrip(
      img: Image, deflate: seq<Byte> -> seq<Byte>, inflate: seq<Byte> -> Option<seq<Byte>>)
    requires Undoes(inflate, deflate)
    requires img.w < WORD && img.h < WORD && |img.rows| == img.h && forall row | row in img.rows :: |row| == img.w
    requires |deflate(Scanlines(img.rows))| < WORD
    ensures ReadFile(FileBytes(img, deflate), inflate)
         == if 0 < img.w < LIMIT && 0 < img.h < LIMIT && |deflate(Scanlines(img.rows))| < LIMIT
            then Some(img) else None
  {
    hide Encodes, ReadFile, ReadImage, Ascii, ChunkBytes, Scanlines, Header;
    var raw := Scanlines(img.rows);
    var a, b, c := Chunk(Ascii("IHDR"), Header(img.w, img.h)), Chunk(Ascii("IDAT"), deflate(raw)), Chunk(Ascii("IEND"), []);
    ChunkEncodes(a);
    ChunkEncodes(b);
    ChunkEncodes(c);
    ImageRoundTrip(img);
    assert inflate(b.data) == Some(raw);
    BodyRoundTrip(img, a, b, c, ChunkBytes(a.kind, a.data), ChunkBytes(b.kind, b.data), ChunkBytes(c.kind, c.data), inflate);
  }

  lemma {:induction false} BodyRoundTrip(
      img: Image, a: Chunk, b: Chunk, c: Chunk, x: seq<Byte>, y: seq<Byte>, z: seq<Byte>,
                      inflate: seq<Byte> -> Option<seq<Byte>>)
    requires a.kind == Ascii("IHDR") && b.kind == Ascii("IDAT") && c == Chunk(Ascii("IEND"), []) && |a.data| < LIMIT
    requires Encodes(x, a) && Encodes(y, b) && Encodes(z, c)
    ensures ReadFile(SIGNATURE + x + y + z, inflate)
         == if |b.data| < LIMIT then ReadImage(a.data, inflate(b.data)) else None
  {
    hide Encodes, ReadChunks, ReadImage, Ascii;
    ThreeChunks(a, b, c, x, y, z);
    assert SIGNATURE + x + y + z == SIGNATURE + (x + y + z);
    FileOfChunks(SIGNATURE + x + y + z, x + y + z, inflate);
  }

  lemma {:induction false} FileOfChunks(s: seq<Byte>, body: seq<Byte>, inflate: seq<Byte> -> Option<seq<Byte>>)
    requires s == SIGNATURE + body
    ensures ReadFile(s, inflate) == ReadBody(ReadChunks(body), inflate)
  {
    hide ReadChunks, ReadBody;
    assert s[..8] == SIGNATURE && s[8..] == body;
  }

  lemma {:induction false} WrongCrcRefused(kind: seq<Byte>, data: seq<Byte>, crc: seq<Byte>, rest: seq<Byte>)
    requires |kind| == |crc| == 4 && |data| < WORD && crc != CrcField(Crc(kind + data))
    ensures ReadChunk(BigEndian(|data|) + kind + data + crc + rest).None?
  {
    hide ReadBigEndian, BigEndian, Crc, CrcField;
    ChunkPieces(kind, data, crc, rest);
    BigEndianRoundTrip(|data|);
  }

  /** A chunk whose type and data were altered only inside 32 consecutive bits is refused. */
  lemma {:induction false} CorruptedChunkRefused(
      kind: seq<Byte>, data: seq<Byte>, kind': seq<Byte>, data': seq<Byte>, rest: seq<Byte>, k: nat)
    requires |kind| == |kind'| == 4 && |data| == |data'| < WORD && kind + data != kind' + data'
    requires AgreeOutside(BitsOf(kind + data), BitsOf(kind' + data'), k)
    ensures ReadChunk(BigEndian(|data|) + kind' + data' + CrcField(Crc(kind + data)) + rest).None?
  {
    hide ReadChunk, BigEndian, Crc, CrcField, BitsOf, AgreeOutside;
    BurstDetected(kind + data, kind' + data', k);
    CrcFieldIsInjective(Crc(kind + data), Crc(kind' + data'));
    WrongCrcRefused(kind', data', CrcField(Crc(kind + data)), rest);
  }

  lemma {:induction false} CrcFieldIsInjective(c: bv32, d: bv32)
    requires c != d
    ensures CrcField(c) != CrcField(d)
  {
    if CrcField(c) == CrcField(d) {
      assert CrcField(c)[0] == CrcField(d)[0] && CrcField(c)[1] == CrcField(d)[1];
      assert CrcField(c)[2] == CrcField(d)[2] && CrcField(c)[3] == CrcField(d)[3];
      BytesDetermineWord(c, d);
    }
  }

  /** The CRC is stored most significant byte first: bit j of the word is bit j % 8 of byte 3 - j / 8. */
  lemma {:induction false} CrcFieldIsBigEndian(c: bv32, j: nat)
    requires j < 32
    ensures BitOf(CrcField(c)[3 - j / 8], j % 8) == Bits(c)[j]
  {
    hide BitOf, Byte0, Byte1, Byte2, Byte3;
    assert j / 8 in {0, 1, 2, 3};
  }
  // ---------- the file, byte by byte ----------

  /** Storing a number keeps it modulo 256; text is stored by the codes of its characters. */
  lemma {:induction false} AsciiCodes(s: string, i: nat)
    requires i < |s| && s[i] < 128 as char
    ensures FromByte(Ascii(s)[i]) == s[i] as int
  {
    hide ToByte, FromByte;
    ByteRoundTrip(s[i] as int);
  }

  /** The image of one colour has h rows of w pixels, each with the three components modulo 256. */
  lemma {:induction false} SolidIs(w: nat, h: nat, r: int, g: int, b: int)
    ensures var img := Solid(w, h, Colour(r, g, b));
            && img.w == w && img.h == h && |img.rows| == h
            && (forall y | 0 <= y < h :: |img.rows[y]| == w)
            && forall y, x | 0 <= y < h && 0 <= x < w ::
                 FromByte(img.rows[y][x].r) == r % 256 && FromByte(img.rows[y][x].g) == g % 256
                 && FromByte(img.rows[y][x].b) == b % 256
  {
    hide ToByte, FromByte;
    ByteRoundTrip(r);
    ByteRoundTrip(g);
    ByteRoundTrip(b);
  }

  /** A row begins with 0, and each pixel is its red, its green and its blue, in this order and modulo 256. */
  lemma {:induction false} RowBytes(w: nat, r: int, g: int, b: int, x: nat)
    requires x < w
    ensures var line := Scanline(seq(w, _ => Colour(r, g, b)));
            && |line| == 1 + 3 * w && line[0] == 0
            && FromByte(line[1 + 3 * x]) == r % 256
            && FromByte(line[2 + 3 * x]) == g % 256
            && FromByte(line[3 + 3 * x]) == b % 256
  {
    hide ToByte, FromByte;
    var row := seq(w, _ => Colour(r, g, b));
    PixelBytesAt(row, x);
    ByteRoundTrip(r);
    ByteRoundTrip(g);
    ByteRoundTrip(b);
  }

  lemma {:induction false} Slices(sig: seq<Byte>, len: seq<Byte>, kind: seq<Byte>, head: seq<Byte>, rest: seq<Byte>)
    requires |sig| == 8 && |len| == 4 && |kind| == 4 && |head| == 13
    ensures var f := sig + len + kind + head + rest;
            f[..8] == sig && f[8..12] == len && f[12..16] == kind && f[16..29] == head
  {
  }

  lemma {:induction false} FileIs(img: Image, deflate: seq<Byte> -> seq<Byte>) returns (rest: seq<Byte>)
    ensures FileBytes(img, deflate) == SIGNATURE + BigEndian(13) + Ascii("IHDR") + Header(img.w, img.h) + rest
  {
    hide BigEndian, Ascii, Crc, CrcField;
    var kind, head := Ascii("IHDR"), Header(img.w, img.h);
    var more := ChunkBytes(Ascii("IDAT"), deflate(Scanlines(img.rows))) + ChunkBytes(Ascii("IEND"), []);
    rest := CrcField(Crc(kind + head)) + more;
    assert ChunkBytes(kind, head) == BigEndian(13) + kind + head + CrcField(Crc(kind + head));
  }

  lemma {:induction false} HeaderSlices(w: nat, h: nat)
    ensures Header(w, h)[..4] == BigEndian(w) && Header(w, h)[4..8] == BigEndian(h)
    ensures Header(w, h)[8..] == [8, 2, 0, 0, 0]
  {
    hide BigEndian;
  }

  /** The bytes are the codes of the characters. */
  predicate Spells(bytes: seq<Byte>, text: string) {
    |bytes| == |text| && forall i | 0 <= i < |text| :: FromByte(bytes[i]) == text[i] as int
  }

  predicate Codes(bytes: seq<Byte>, codes: seq<int>) {
    |bytes| == |codes| && forall i | 0 <= i < |codes| :: FromByte(bytes[i]) == codes[i]
  }

  predicate WordAt(f: seq<Byte>, at: nat, v: nat) {
    at + 4 <= |f| && ReadBigEndian(f[at..at + 4]) == v
  }

  lemma {:induction false} SignatureCodes()
    ensures Codes(SIGNATURE, [137, 80, 78, 71, 13, 10, 26, 10])
  {
    assert FromByte(0x89) == 137 && FromByte(0x50) == 80 && FromByte(0x4e) == 78 && FromByte(0x47) == 71;
    assert FromByte(0x0d) == 13 && FromByte(0x0a) == 10 && FromByte(0x1a) == 26;
  }

  lemma {:induction false} DepthCodes()
    ensures Codes([8, 2, 0, 0, 0], [8, 2, 0, 0, 0])
  {
    assert FromByte(8) == 8 && FromByte(2) == 2 && FromByte(0) == 0;
  }

  /** The signature and the first chunk: thirteen bytes, width before height, eight bits for each of red, green and
      blue. */
  predicate StartsAs(f: seq<Byte>, w: nat, h: nat) {
    && |f| >= 29 && Codes(f[..8], [137, 80, 78, 71, 13, 10, 26, 10])
    && WordAt(f, 8, 13) && Spells(f[12..16], "IHDR")
    && WordAt(f, 16, w) && WordAt(f, 20, h) && Codes(f[24..29], [8, 2, 0, 0, 0])
  }

  lemma {:induction false} FileStarts(img: Image, deflate: seq<Byte> -> seq<Byte>)
    requires img.w < WORD && img.h < WORD
    ensures StartsAs(FileBytes(img, deflate), img.w, img.h)
  {
    hide FileBytes, BigEndian, Ascii, Header, ReadBigEndian, FromByte, ToByte, Codes;
    var rest := FileIs(img, deflate);
    var f, head := FileBytes(img, deflate), Header(img.w, img.h);
    Slices(SIGNATURE, BigEndian(13), Ascii("IHDR"), head, rest);
    HeaderSlices(img.w, img.h);
    assert f[16..20] == head[..4] && f[20..24] == head[4..8] && f[24..29] == head[8..];
    BigEndianRoundTrip(13);
    BigEndianRoundTrip(img.w);
    BigEndianRoundTrip(img.h);
    SignatureCodes();
    DepthCodes();
    forall i | 0 <= i < 4 ensures FromByte(Ascii("IHDR")[i]) == "IHDR"[i] as int { AsciiCodes("IHDR", i); }
  }
}
