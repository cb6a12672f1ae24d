/** The stable PNG writer (cmd/image-bench/main.go, `encodeStableBenchmarkPNG` and
  `writeBenchmarkPNGChunk`) against a reader of the PNG specification. */
module Png {
  import opened Bytes
  import opened Common
  import opened Zlib

  /** An NRGBA image: `pix` holds row `y` at `y * stride`, four bytes a pixel. */
  datatype Image = Image(width: nat, height: nat, stride: nat, pix: seq<Byte>) {
    /** Every row the encoder slices lies inside `pix`. */
    ghost predicate Valid() {
      forall y :: 0 <= y < height ==> y * stride + 4 * width <= |pix|
    }

    function Row(y: nat): (row: seq<Byte>)
      requires Valid() && y < height
      ensures |row| == 4 * width
    {
      pix[y * stride..y * stride + 4 * width]
    }
  }

  const SIGNATURE: seq<Byte> := [0x89, 0x50, 0x4E, 0x47, 0x0D, 0x0A, 0x1A, 0x0A]
  const IHDR: seq<Byte> := [0x49, 0x48, 0x44, 0x52]
  const IDAT: seq<Byte> := [0x49, 0x44, 0x41, 0x54]
  const IEND: seq<Byte> := [0x49, 0x45, 0x4E, 0x44]

  // ---------------------------------------------------------------- the writer

  function ChunkBytes(kind: seq<Byte>, data: seq<Byte>, crc: Checksum): seq<Byte> {
    PutBE32(|data|) + kind + data + PutBE32(crc(kind + data))
  }

  function Header(img: Image): (h: seq<Byte>)
    ensures |h| == 13
  {
    PutBE32(img.width) + PutBE32(img.height) + [8, 6, 0, 0, 0]
  }

  /** The first `n` rows, each after its filter byte. */
  function RawRows(img: Image, n: nat): seq<Byte>
    requires img.Valid() && n <= img.height
  {
    if n == 0 then [] else RawRows(img, n - 1) + ([0] + img.Row(n - 1))
  }

  function Encoded(img: Image, adler: Checksum, crc: Checksum): seq<Byte>
    requires img.Valid()
  {
    SIGNATURE + ChunkBytes(IHDR, Header(img), crc)
    + ChunkBytes(IDAT, Stored(RawRows(img, img.height), adler), crc)
    + ChunkBytes(IEND, [], crc)
  }

  /** An output, how much more it takes, and whether the last write succeeded. */
  datatype Output = Output(written: seq<Byte>, room: nat, ok: bool)

  /** Writing all of `data`, or as much of its start as there is room for. */
  function Emit(written: seq<Byte>, room: nat, data: seq<Byte>): Output {
    if |data| <= room then Output(written + data, room - |data|, true)
    else Output(written + data[..room], 0, false)
  }

  /** As much is written as there is room for, from the start. */
  lemma EmitIs(written: seq<Byte>, room: nat, data: seq<Byte>)
    ensures var r, n := Emit(written, room, data), if |data| <= room then |data| else room;
      r.written == written + data[..n] && (r.ok <==> |data| <= room)
  {
    assert data[..|data|] == data;
  }

  /** Writing in two parts, stopping at a failure, is writing the whole. */
  lemma EmitSplit(written: seq<Byte>, room: nat, a: seq<Byte>, b: seq<Byte>)
    ensures var first := Emit(written, room, a);
      Emit(written, room, a + b) == if first.ok then Emit(first.written, first.room, b) else first
  {
    if |a| <= room {
      if |a + b| <= room {
        assert written + (a + b) == written + a + b;
      } else {
        assert written + (a + b)[..room] == written + a + b[..room - |a|];
      }
    } else {
      assert (a + b)[..room] == a[..room];
    }
  }

  /** An output that takes `room` more bytes and then fails. */
  class Writer {
    var written: seq<Byte>
    var room: nat

    constructor (room: nat)
      ensures written == [] && this.room == room
    {
      written, this.room := [], room;
    }

    method Write(data: seq<Byte>) returns (ok: bool)
      modifies this
      ensures Output(written, room, ok) == Emit(old(written), old(room), data)
      ensures ok <==> |data| <= old(room)
      ensures written == old(written) + data[..if |data| <= old(room) then |data| else old(room)]
    {
      ok := |data| <= room;
      var n := if ok then |data| else room;
      assert ok ==> data[..n] == data;
      written, room := written + data[..n], room - n;
    }
  }

  method WriteChunk(out: Writer, kind: seq<Byte>, data: seq<Byte>, crc: Checksum) returns (ok: bool)
    modifies out
    ensures Output(out.written, out.room, ok) == Emit(old(out.written), old(out.room), ChunkBytes(kind, data, crc))
  {
    hide PutBE32, Emit;
    PutBE32Wraps(|data|);
    var size, sum := PutBE32(|data| % 0x1_0000_0000), PutBE32(crc(kind + data));
    EmitSplit(out.written, out.room, size + kind + data, sum);
    EmitSplit(out.written, out.room, size + kind, data);
    EmitSplit(out.written, out.room, size, kind);
    ok := out.Write(size);
    if !ok { return; }
    ok := out.Write(kind);
    if !ok { return; }
    ok := out.Write(data);
    if !ok { return; }
    ok := out.Write(sum);
  }

  /** The digits of a number do not depend on multiples of 2^32. */
  lemma BytesAbove(q: nat, m: nat)
    ensures (TWO32 * q + m) / 0x100 == 0x100_0000 * q + m / 0x100
    ensures (TWO32 * q + m) / 0x1_0000 == 0x1_0000 * q + m / 0x1_0000
    ensures (TWO32 * q + m) / 0x100_0000 == 0x100 * q + m / 0x100_0000
  {
  }

  lemma LowByte(m: nat, k: nat)
    ensures (256 * m + k) % 256 == k % 256
  {
  }

  lemma PutBE32Adds(q: nat, m: nat)
    ensures PutBE32(TWO32 * q + m) == PutBE32(m)
  {
    BytesAbove(q, m);
    LowByte(0x1_0000 * q, m / 0x100);
    LowByte(0x100 * q, m / 0x1_0000);
    LowByte(q, m / 0x100_0000);
    LowByte(0x100_0000 * q, m);
  }

  lemma PutBE32Wraps(n: nat)
    ensures PutBE32(n % TWO32) == PutBE32(n)
  {
    hide PutBE32;
    assert n == TWO32 * (n / TWO32) + n % TWO32;
    PutBE32Adds(n / TWO32, n % TWO32);
  }

  method EncodeStable(out: Writer, img: Image, adler: Checksum, crc: Checksum) returns (ok: bool)
    requires img.Valid()
    modifies out
    ensures Output(out.written, out.room, ok) == Emit(old(out.written), old(out.room), Encoded(img, adler, crc))
    ensures var f := Encoded(img, adler, crc);
      && (ok <==> |f| <= old(out.room))
      && out.written == old(out.written) + f[..if |f| <= old(out.room) then |f| else old(out.room)]
  {
    EmitIs(out.written, out.room, Encoded(img, adler, crc));
    hide PutBE32, Emit, Stored, ChunkBytes, Header;
    EncodedInParts(out.written, out.room, img, adler, crc);
    ok := out.Write(SIGNATURE);
    if !ok { return; }
    ok := WriteChunk(out, IHDR, Header(img), crc);
    if !ok { return; }
    var raw := FilterRows(img);
    var zipped := StoredZlib(raw, adler);
    ok := WriteChunk(out, IDAT, zipped, crc);
    if !ok { return; }
    ok := WriteChunk(out, IEND, [], crc);
  }

  /** Every row after a zero filter byte, as the encoder buffers them. */
  method FilterRows(img: Image) returns (raw: seq<Byte>)
    requires img.Valid()
    ensures raw == RawRows(img, img.height)
  {
    raw := [];
    for y := 0 to img.height
      invariant raw == RawRows(img, y)
    {
      raw := raw + ([0] + img.pix[y * img.stride..y * img.stride + 4 * img.width]);
    }
  }

  lemma EncodedInParts(written: seq<Byte>, room: nat, img: Image, adler: Checksum, crc: Checksum)
    requires img.Valid()
    ensures var c0, c1, c2 := ChunkBytes(IHDR, Header(img), crc),
          ChunkBytes(IDAT, Stored(RawRows(img, img.height), adler), crc), ChunkBytes(IEND, [], crc);
      var a := Emit(written, room, SIGNATURE);
      var b := if a.ok then Emit(a.written, a.room, c0) else a;
      var c := if b.ok then Emit(b.written, b.room, c1) else b;
      Emit(written, room, Encoded(img, adler, crc)) == if c.ok then Emit(c.written, c.room, c2) else c
  {
    hide Emit, ChunkBytes, Header, Stored;
    var c0, c1, c2 := ChunkBytes(IHDR, Header(img), crc),
      ChunkBytes(IDAT, Stored(RawRows(img, img.height), adler), crc), ChunkBytes(IEND, [], crc);
    EmitSplit(written, room, SIGNATURE + c0 + c1, c2);
    EmitSplit(written, room, SIGNATURE + c0, c1);
    EmitSplit(written, room, SIGNATURE, c0);
  }

  // ---------------------------------------------------------------- the reader

  datatype Chunk = Chunk(kind: seq<Byte>, data: seq<Byte>)

  /** Section 5.3 of the PNG specification: length (at most 2^31 - 1), type, data, CRC. */
  function ReadChunks(s: seq<Byte>, crc: Checksum): Option<seq<Chunk>>
    decreases |s|
  {
    if s == [] then Some([])
    else if |s| < 12 then None
    else
      var len := GetBE32(s[..4]);
      if len >= TWO31 || |s| < 12 + len then None
      else
        var kind, data := s[4..8], s[8..8 + len];
        if GetBE32(s[8 + len..12 + len]) != crc(kind + data) % TWO32 then None
        else
          var more := ReadChunks(s[12 + len..], crc);
          if more.None? then None else Some([Chunk(kind, data)] + more.value)
  }

  /** Data of consecutive IDAT chunks, or nothing when another kind is among them. */
  function ImageData(chunks: seq<Chunk>): Option<seq<Byte>> {
    if chunks == [] then Some([])
    else if chunks[0].kind != IDAT then None
    else
      var more := ImageData(chunks[1..]);
      if more.None? then None else Some(chunks[0].data + more.value)
  }

  /** `h` scanlines of `4 * w` bytes with filter type None before each (section 9.2). */
  function ReadRows(raw: seq<Byte>, w: nat, h: nat): Option<seq<seq<Byte>>> {
    if h == 0 then (if raw == [] then Some([]) else None)
    else if |raw| < 1 + 4 * w || raw[0] != 0 then None
    else
      var more := ReadRows(raw[1 + 4 * w..], w, h - 1);
      if more.None? then None else Some([raw[1..1 + 4 * w]] + more.value)
  }

  datatype Picture = Picture(width: nat, height: nat, rows: seq<seq<Byte>>)

  /** An 8-bit RGBA, non-interlaced picture in a well-formed datastream. */
  function Decode(s: seq<Byte>, adler: Checksum, crc: Checksum): Option<Picture> {
    if |s| < 8 || s[..8] != SIGNATURE then None
    else
      var chunks := ReadChunks(s[8..], crc);
      if chunks.None? || |chunks.value| < 2 then None
      else
        var first, last := chunks.value[0], chunks.value[|chunks.value| - 1];
        if first.kind != IHDR || |first.data| != 13 || last != Chunk(IEND, []) then None
        else
          var w, h := GetBE32(first.data[..4]), GetBE32(first.data[4..8]);
          if w == 0 || h == 0 || w >= TWO31 || h >= TWO31 || first.data[8..] != [8, 6, 0, 0, 0] then None
          else
            var zipped := ImageData(chunks.value[1..|chunks.value| - 1]);
            if zipped.None? then None
            else
              var raw := Unzip(zipped.value, adler);
              if raw.None? then None
              else
                var rows := ReadRows(raw.value, w, h);
                if rows.None? then None else Some(Picture(w, h, rows.value))
  }

  // ---------------------------------------------------------------- the round trip

  lemma ChunkLayout(kind: seq<Byte>, data: seq<Byte>, crc: Checksum, tail: seq<Byte>)
    requires |kind| == 4
    ensures var s, n := ChunkBytes(kind, data, crc) + tail, |data|;
      && |s| >= 12 + n && s[..4] == PutBE32(n) && s[4..8] == kind && s[8..8 + n] == data
      && s[8 + n..12 + n] == PutBE32(crc(kind + data)) && s[12 + n..] == tail
  {
    hide PutBE32;
  }

  lemma ReadChunk(kind: seq<Byte>, data: seq<Byte>, crc: Checksum, tail: seq<Byte>)
    requires |kind| == 4 && |data| < TWO31
    ensures var s, more := ChunkBytes(kind, data, crc) + tail, ReadChunks(tail, crc);
      ReadChunks(s, crc) == if more.None? then None else Some([Chunk(kind, data)] + more.value)
  {
    hide PutBE32, GetBE32, ChunkBytes;
    ChunkLayout(kind, data, crc, tail);
    BE32RoundTrip(|data|);
    BE32RoundTrip(crc(kind + data));
    assert |data| % TWO32 == |data|;
  }

  function Rows(img: Image): seq<seq<Byte>>
    requires img.Valid()
  {
    seq(img.height, y requires 0 <= y < img.height => img.Row(y))
  }

  lemma {:induction false} RawRowsLength(img: Image, n: nat)
    requires img.Valid() && n <= img.height
    ensures |RawRows(img, n)| == n * (1 + 4 * img.width)
  {
    if n > 0 {
      RawRowsLength(img, n - 1);
      var row := 1 + 4 * img.width;
      assert (n - 1) * row + row == n * row;
    }
  }

  /** The rows from `n` on, as the reader meets them. */
  function RowsFrom(img: Image, n: nat): seq<Byte>
    requires img.Valid() && n <= img.height
    decreases img.height - n
  {
    if n == img.height then [] else [0] + img.Row(n) + RowsFrom(img, n + 1)
  }

  lemma {:induction false} RawRowsSplit(img: Image, n: nat)
    requires img.Valid() && n <= img.height
    ensures RawRows(img, img.height) == RawRows(img, n) + RowsFrom(img, n)
    decreases img.height - n
  {
    hide RawRows, RowsFrom, Image.Valid, Image.Row;
    OneRow(img, n);
    if n < img.height {
      RawRowsSplit(img, n + 1);
      var row, rest := [0] + img.Row(n), RowsFrom(img, n + 1);
      assert RawRows(img, n) + (row + rest) == (RawRows(img, n) + row) + rest;
    } else {
      assert RawRows(img, n) + [] == RawRows(img, n);
    }
  }

  lemma OneRow(img: Image, n: nat)
    requires img.Valid() && n <= img.height
    ensures n == img.height ==> RowsFrom(img, n) == []
    ensures n < img.height ==>
      RawRows(img, n + 1) == RawRows(img, n) + ([0] + img.Row(n))
      && RowsFrom(img, n) == ([0] + img.Row(n)) + RowsFrom(img, n + 1)
  {
  }

  lemma {:induction false} ReadRowsBack(img: Image, n: nat)
    requires img.Valid() && n <= img.height
    ensures ReadRows(RowsFrom(img, n), img.width, img.height - n) == Some(Rows(img)[n..])
    decreases img.height - n
  {
    if n < img.height {
      ReadRowsBack(img, n + 1);
      var s := RowsFrom(img, n);
      assert s[1..1 + 4 * img.width] == img.Row(n);
      assert s[1 + 4 * img.width..] == RowsFrom(img, n + 1);
      assert Rows(img)[n..] == [img.Row(n)] + Rows(img)[n + 1..];
    }
  }

  lemma RawRowsFirst(img: Image)
    requires img.Valid() && img.height > 0
    ensures RawRows(img, 0) == [] && RawRows(img, img.height) != []
  {
  }

  lemma RawRowsRead(img: Image)
    requires img.Valid() && img.height > 0
    ensures ReadRows(RawRows(img, img.height), img.width, img.height) == Some(Rows(img))
    ensures RawRows(img, img.height) != []
  {
    hide RawRows, RowsFrom, ReadRows;
    RawRowsSplit(img, 0);
    ReadRowsBack(img, 0);
    assert Rows(img)[0..] == Rows(img);
    RawRowsFirst(img);
    assert RawRows(img, img.height) == RowsFrom(img, 0);
  }

  lemma EncodedChunks(img: Image, adler: Checksum, crc: Checksum)
    requires img.Valid() && |Stored(RawRows(img, img.height), adler)| < TWO31
    ensures |Encoded(img, adler, crc)| >= 8 && Encoded(img, adler, crc)[..8] == SIGNATURE
    ensures ReadChunks(Encoded(img, adler, crc)[8..], crc) ==
      Some([Chunk(IHDR, Header(img)), Chunk(IDAT, Stored(RawRows(img, img.height), adler)), Chunk(IEND, [])])
  {
    hide Stored, ChunkBytes, ReadChunks, Header;
    var zipped := Stored(RawRows(img, img.height), adler);
    var c0, c1, c2 := ChunkBytes(IHDR, Header(img), crc), ChunkBytes(IDAT, zipped, crc), ChunkBytes(IEND, [], crc);
    assert Encoded(img, adler, crc)[8..] == c0 + (c1 + (c2 + []));
    NoChunks(crc);
    ReadChunk(IEND, [], crc, []);
    ReadChunk(IDAT, zipped, crc, c2 + []);
    ReadChunk(IHDR, Header(img), crc, c1 + (c2 + []));
    var a, b, c := Chunk(IHDR, Header(img)), Chunk(IDAT, zipped), Chunk(IEND, []);
    assert [a] + ([b] + ([c] + [])) == [a, b, c];
  }

  lemma NoChunks(crc: Checksum)
    ensures ReadChunks([], crc) == Some([])
  {
  }

  lemma HeaderRead(img: Image)
    requires img.width < TWO31 && img.height < TWO31
    ensures var h := Header(img);
      GetBE32(h[..4]) == img.width && GetBE32(h[4..8]) == img.height && h[8..] == [8, 6, 0, 0, 0]
  {
    BE32RoundTrip(img.width);
    BE32RoundTrip(img.height);
    hide PutBE32, GetBE32;
    var h := Header(img);
    assert h[..4] == PutBE32(img.width) && h[4..8] == PutBE32(img.height);
  }

  function PictureSize(width: nat, height: nat): nat {
    StreamLength(height * (1 + 4 * width))
  }

  /** The length of the zlib stream of an image. */
  function StreamSize(img: Image): nat {
    PictureSize(img.width, img.height)
  }

  lemma StreamSizeIs(img: Image, adler: Checksum)
    requires img.Valid()
    ensures |Stored(RawRows(img, img.height), adler)| == StreamSize(img)
  {
    hide RawRows, Blocks;
    RawRowsLength(img, img.height);
    StoredLength(RawRows(img, img.height), adler);
    BlocksLength(RawRows(img, img.height));
  }

  /** The stream is longer than either side of the image. */
  lemma SidesWithinStream(img: Image)
    requires 0 < img.width && 0 < img.height
    ensures img.width < StreamSize(img) && img.height < StreamSize(img)
  {
    Product(img.height, 1 + 4 * img.width);
  }

  lemma Product(a: nat, b: nat)
    requires a > 0 && b > 0
    ensures a * b >= a && a * b >= b
  {
  }

  lemma DecodesWithinLimits(img: Image, adler: Checksum, crc: Checksum)
    requires img.Valid() && 0 < img.width && 0 < img.height && StreamSize(img) < TWO31
    ensures Decode(Encoded(img, adler, crc), adler, crc) == Some(Picture(img.width, img.height, Rows(img)))
  {
    hide Encoded, ReadChunks, Header, Stored, Unzip, ReadRows, RawRows, GetBE32, Rows, StreamSize, ImageData;
    SidesWithinStream(img);
    StreamSizeIs(img, adler);
    EncodedChunks(img, adler, crc);
    HeaderRead(img);
    RawRowsRead(img);
    StoredRoundTrip(RawRows(img, img.height), adler);
    var zipped := Stored(RawRows(img, img.height), adler);
    OneIdat(zipped);
    var chunks := [Chunk(IHDR, Header(img)), Chunk(IDAT, zipped), Chunk(IEND, [])];
    assert chunks[1..|chunks| - 1] == [Chunk(IDAT, zipped)];
  }

  lemma OneIdat(zipped: seq<Byte>)
    ensures ImageData([Chunk(IDAT, zipped)]) == Some(zipped)
  {
    assert [Chunk(IDAT, zipped)][1..] == [];
    assert zipped + [] == zipped;
  }

  // ---------------------------------------------------------------- the exact condition

  function DataSize(chunks: seq<Chunk>): nat {
    if chunks == [] then 0 else |chunks[0].data| + DataSize(chunks[1..])
  }

  /** Chunks take twelve bytes each besides their data, and no chunk is longer than the format allows. */
  lemma {:induction false} ChunksLength(s: seq<Byte>, crc: Checksum)
    requires ReadChunks(s, crc).Some?
    ensures var chunks := ReadChunks(s, crc).value;
      |s| == 12 * |chunks| + DataSize(chunks) && forall i :: 0 <= i < |chunks| ==> |chunks[i].data| < TWO31
    decreases |s|
  {
    hide GetBE32;
    if s != [] {
      var len := GetBE32(s[..4]);
      var rest := s[12 + len..];
      ChunksLength(rest, crc);
      var chunks, more := ReadChunks(s, crc).value, ReadChunks(rest, crc).value;
      assert chunks == [Chunk(s[4..8], s[8..8 + len])] + more && chunks[1..] == more;
    }
  }

  lemma {:induction false} ImageDataSize(chunks: seq<Chunk>)
    requires ImageData(chunks).Some?
    ensures |ImageData(chunks).value| == DataSize(chunks)
  {
    if chunks != [] { ImageDataSize(chunks[1..]); }
  }

  lemma {:induction false} DataSizeSnoc(chunks: seq<Chunk>, c: Chunk)
    ensures DataSize(chunks + [c]) == DataSize(chunks) + |c.data|
  {
    if chunks == [] {
      assert [] + [c] == [c] && [c][1..] == [];
    } else {
      DataSizeSnoc(chunks[1..], c);
      assert (chunks + [c])[1..] == chunks[1..] + [c];
    }
  }

  lemma {:induction false} RowsLength(raw: seq<Byte>, w: nat, h: nat)
    requires ReadRows(raw, w, h).Some?
    ensures |raw| == h * (1 + 4 * w)
    decreases h
  {
    if h > 0 {
      var row := 1 + 4 * w;
      RowsLength(raw[row..], w, h - 1);
      assert (h - 1) * row + row == h * row;
    }
  }

  /** A header, image data that is long enough for the picture, an end, no chunk too long. */
  ghost predicate HasParts(s: seq<Byte>, p: Picture, chunks: seq<Chunk>) {
    && p.width > 0 && p.height > 0 && |chunks| >= 2
    && |s| == 8 + 12 * |chunks| + 13 + DataSize(chunks[1..|chunks| - 1])
    && DataSize(chunks[1..|chunks| - 1]) >= PictureSize(p.width, p.height)
    && forall i :: 0 <= i < |chunks| ==> |chunks[i].data| < TWO31
  }

  /** What a file that decodes to a picture is made of. */
  lemma DecodedParts(s: seq<Byte>, adler: Checksum, crc: Checksum) returns (chunks: seq<Chunk>)
    requires Decode(s, adler, crc).Some?
    ensures HasParts(s, Decode(s, adler, crc).value, chunks)
  {
    hide ReadChunks, ImageData, Unzip, ReadRows, GetBE32, DataSize, StreamLength;
    chunks := ReadChunks(s[8..], crc).value;
    ChunksLength(s[8..], crc);
    var p := Decode(s, adler, crc).value;
    var middle := chunks[1..|chunks| - 1];
    ImageDataSize(middle);
    var raw := Unzip(ImageData(middle).value, adler).value;
    UnzippedLength(ImageData(middle).value, adler);
    RowsLength(raw, p.width, p.height);
    assert chunks == [chunks[0]] + (middle + [chunks[|chunks| - 1]]);
    HeadSize(chunks[0], middle + [chunks[|chunks| - 1]]);
    DataSizeSnoc(middle, chunks[|chunks| - 1]);
  }

  lemma HeadSize(c: Chunk, chunks: seq<Chunk>)
    ensures DataSize([c] + chunks) == |c.data| + DataSize(chunks)
  {
    assert ([c] + chunks)[1..] == chunks;
  }

  lemma EncodedLength(img: Image, adler: Checksum, crc: Checksum)
    requires img.Valid()
    ensures |Encoded(img, adler, crc)| == 8 + 36 + 13 + StreamSize(img)
  {
    hide Stored, RawRows, StreamSize, Header;
    StreamSizeIs(img, adler);
  }

  /** A file that decodes to a picture of the image's size holds the whole stream in one chunk. */
  lemma DecodingNeedsLimits(img: Image, adler: Checksum, crc: Checksum)
    requires img.Valid()
    requires var p := Decode(Encoded(img, adler, crc), adler, crc);
      p.Some? && p.value.width == img.width && p.value.height == img.height
    ensures 0 < img.width && 0 < img.height && StreamSize(img) < TWO31
  {
    hide Decode, Encoded, PictureSize, DataSize;
    var chunks := DecodedParts(Encoded(img, adler, crc), adler, crc);
    EncodedLength(img, adler, crc);
    NoData();
    StreamIsNotEmpty(img);
    var middle := chunks[1..|chunks| - 1];
    assert |chunks| == 2 ==> middle == [];
    assert middle == [chunks[1]] + [];
    HeadSize(chunks[1], []);
  }

  lemma NoData()
    ensures DataSize([]) == 0
  {
  }

  lemma StreamIsNotEmpty(img: Image)
    ensures StreamSize(img) >= 6
  {
  }

  /** The round trip, exactly: whatever the checksums are, decoding what the encoder writes returns
      the image's pixels if and only if the image is not empty and its stream fits one chunk. */
  lemma PngRoundTrip(img: Image, adler: Checksum, crc: Checksum)
    requires img.Valid()
    ensures Decode(Encoded(img, adler, crc), adler, crc) == Some(Picture(img.width, img.height, Rows(img)))
       <==> 0 < img.width && 0 < img.height && StreamSize(img) < TWO31
  {
    hide Decode, Encoded, StreamSize, Rows, Image.Valid;
    if 0 < img.width && 0 < img.height && StreamSize(img) < TWO31 { DecodesWithinLimits(img, adler, crc); }
    if Decode(Encoded(img, adler, crc), adler, crc) == Some(Picture(img.width, img.height, Rows(img))) {
      DecodingNeedsLimits(img, adler, crc);
    }
  }

  /** An image past that limit: one column of five hundred million pixels is not read back. */
  lemma TooTallIsLost(adler: Checksum, crc: Checksum)
    ensures var img := Image(1, 500_000_000, 4, seq(2_000_000_000, _ => 0));
      img.Valid() && Decode(Encoded(img, adler, crc), adler, crc) != Some(Picture(img.width, img.height, Rows(img)))
  {
    var img := Image(1, 500_000_000, 4, seq(2_000_000_000, _ => 0));
    assert img.Valid();
    assert StreamSize(img) >= TWO31;
    hide Decode, Encoded, StreamSize, Rows, Image.Valid;
    PngRoundTrip(img, adler, crc);
  }

  /** Beyond 32 bits the header cannot even tell images apart: widths that differ by 2^32
      are written as the same bytes. */
  lemma WideHeaderWraps(img: Image)
    ensures Header(img.(width := img.width + TWO32)) == Header(img)
  {
    hide PutBE32;
    PutBE32Adds(1, img.width);
  }

  // ---------------------------------------------------------------- the file, byte by byte

  /** The four bytes of a number, most significant first. */
  predicate Reads(s: seq<Byte>, n: nat)
    requires |s| == 4
  {
    0x100_0000 * (s[0] as int) + 0x1_0000 * (s[1] as int) + 0x100 * (s[2] as int) + s[3] as int == n % 0x1_0000_0000
  }

  lemma ReadsPut(n: nat)
    ensures Reads(PutBE32(n), n)
  {
    BigEndian(n);
  }

  /** A chunk: the number of its data bytes, its type, the data, and the checksum of type and data. */
  ghost predicate IsChunk(s: seq<Byte>, kind: seq<Byte>, data: seq<Byte>, crc: Checksum) {
    && |kind| == 4 && |s| == 12 + |data|
    && Reads(s[..4], |data|) && s[4..8] == kind && s[8..8 + |data|] == data
    && Reads(s[8 + |data|..], crc(s[4..8 + |data|]))
  }

  lemma ChunkIs(kind: seq<Byte>, data: seq<Byte>, crc: Checksum)
    requires |kind| == 4
    ensures IsChunk(ChunkBytes(kind, data, crc), kind, data, crc)
  {
    hide PutBE32, Reads;
    ReadsPut(|data|);
    ReadsPut(crc(kind + data));
    var s := ChunkBytes(kind, data, crc);
    assert s[..4] == PutBE32(|data|) && s[4..8 + |data|] == kind + data && s[8 + |data|..] == PutBE32(crc(kind + data));
  }

  /** The header chunk's data: width, height, depth 8, colour type 6, and nothing special. */
  ghost predicate IsHeader(h: seq<Byte>, width: nat, height: nat) {
    |h| == 13 && Reads(h[..4], width) && Reads(h[4..8], height) && h[8..] == [8, 6, 0, 0, 0]
  }

  lemma HeaderIs(img: Image)
    ensures IsHeader(Header(img), img.width, img.height)
  {
    hide PutBE32, Reads;
    ReadsPut(img.width);
    ReadsPut(img.height);
    var h := Header(img);
    assert h[..4] == PutBE32(img.width) && h[4..8] == PutBE32(img.height);
  }

  /** The file: the signature, then the chunks IHDR, IDAT and IEND, the first with the image's
      dimensions, the second with the compressed rows, the third empty. */
  lemma FileLayout(img: Image, adler: Checksum, crc: Checksum) returns (header: seq<Byte>)
    requires img.Valid()
    ensures IsHeader(header, img.width, img.height)
    ensures var f, z := Encoded(img, adler, crc), Stored(RawRows(img, img.height), adler);
      && |f| == 57 + |z|
      && f[..8] == [137, 80, 78, 71, 13, 10, 26, 10]
      && IsChunk(f[8..33], [73, 72, 68, 82], header, crc)
      && IsChunk(f[33..45 + |z|], [73, 68, 65, 84], z, crc)
      && IsChunk(f[45 + |z|..], [73, 69, 78, 68], [], crc)
  {
    hide IsChunk, ChunkBytes, Stored, RawRows, Header, IsHeader;
    header := Header(img);
    HeaderIs(img);
    var f, z := Encoded(img, adler, crc), Stored(RawRows(img, img.height), adler);
    ChunkIs(IHDR, header, crc);
    ChunkIs(IDAT, z, crc);
    ChunkIs(IEND, [], crc);
    ChunkSize(IHDR, header, crc);
    ChunkSize(IDAT, z, crc);
    ChunkSize(IEND, [], crc);
    FourParts(SIGNATURE, ChunkBytes(IHDR, header, crc), ChunkBytes(IDAT, z, crc), ChunkBytes(IEND, [], crc));
  }

  lemma ChunkSize(kind: seq<Byte>, data: seq<Byte>, crc: Checksum)
    requires |kind| == 4
    ensures |ChunkBytes(kind, data, crc)| == 12 + |data|
  {
  }

  lemma FourParts(a: seq<Byte>, b: seq<Byte>, c: seq<Byte>, d: seq<Byte>)
    ensures var f := a + b + c + d;
      f[..|a|] == a && f[|a|..|a| + |b|] == b && f[|a| + |b|..|a| + |b| + |c|] == c && f[|a| + |b| + |c|..] == d
  {
  }

  /** The position of a row's filter byte among the uncompressed rows. */
  function RowStart(img: Image, y: nat): nat {
    y * (1 + 4 * img.width)
  }

  /** Where the pixels are before compression: behind a zero byte for each row, in the rows' order,
      each row from where it starts in the image. */
  lemma {:induction false} PixelBytes(img: Image, n: nat, y: nat)
    requires img.Valid() && n <= img.height && y < n
    ensures var raw, start := RawRows(img, n), RowStart(img, y);
      && |raw| == RowStart(img, n) && start + 1 + 4 * img.width <= |raw|
      && y * img.stride + 4 * img.width <= |img.pix|
      && raw[start..start + 1 + 4 * img.width] == [0] + img.pix[y * img.stride..y * img.stride + 4 * img.width]
  {
    LastRow(img, n);
    hide RawRows, RowStart, Image.Valid;
    if y < n - 1 {
      PixelBytes(img, n - 1, y);
      var raw, init, start := RawRows(img, n), RawRows(img, n - 1), RowStart(img, y);
      assert raw[start..start + 1 + 4 * img.width] == init[start..start + 1 + 4 * img.width];
    }
  }

  lemma LastRow(img: Image, n: nat)
    requires img.Valid() && 0 < n <= img.height
    ensures |RawRows(img, n)| == RowStart(img, n) == RowStart(img, n - 1) + 1 + 4 * img.width
    ensures (n - 1) * img.stride + 4 * img.width <= |img.pix|
    ensures var start := RowStart(img, n - 1);
      && RawRows(img, n - 1) == RawRows(img, n)[..start]
      && RawRows(img, n)[start..]
           == [0] + img.pix[(n - 1) * img.stride..(n - 1) * img.stride + 4 * img.width]
  {
    RawRowsLength(img, n);
    RawRowsLength(img, n - 1);
    RowAfterRow(n, 1 + 4 * img.width);
    assert RawRows(img, n) == RawRows(img, n - 1) + ([0] + img.Row(n - 1));
  }

  lemma RowAfterRow(n: nat, row: nat)
    requires n > 0
    ensures n * row == (n - 1) * row + row
  {
  }
}
