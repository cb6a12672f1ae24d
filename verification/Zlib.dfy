/** The hand-written stored-block zlib stream (cmd/image-bench/main.go,
  `storedBenchmarkZlib`) against a reader of RFC 1950 and RFC 1951. */
module Zlib {
  import opened Bytes
  import opened Common

  /** A checksum; Adler-32 itself is not modelled, only that both sides use the same one. */
  type Checksum = seq<Byte> -> nat

  const MAX_BLOCK: nat := 65535

  // ---------------------------------------------------------------- the writer

  /** Bitwise complement of a uint16. */
  function Not16(n: nat): nat
    requires n < TWO16
  {
    TWO16 - 1 - n
  }

  function BlockSize(raw: seq<Byte>): (n: nat)
    ensures n <= |raw| && n <= MAX_BLOCK && (raw != [] ==> n > 0)
  {
    if |raw| < MAX_BLOCK then |raw| else MAX_BLOCK
  }

  function Block(raw: seq<Byte>): seq<Byte> {
    var n := BlockSize(raw);
    [if n == |raw| then 1 else 0] + PutLE16(n) + PutLE16(Not16(n)) + raw[..n]
  }

  function Blocks(raw: seq<Byte>): seq<Byte>
    decreases |raw|
  {
    if raw == [] then [] else Block(raw) + Blocks(raw[BlockSize(raw)..])
  }

  function Stored(raw: seq<Byte>, adler: Checksum): seq<Byte> {
    [0x78, 0x01] + Blocks(raw) + PutBE32(adler(raw))
  }

  method StoredZlib(raw: seq<Byte>, adler: Checksum) returns (encoded: seq<Byte>)
    ensures encoded == Stored(raw, adler)
    ensures |encoded| <= |raw| + (|raw| / 65535 + 1) * 5 + 6
  {
    hide PutLE16, PutBE32, Blocks, Not16;
    var checksum := adler(raw);
    encoded := [0x78, 0x01];
    var left := raw;
    while |left| > 0
      invariant encoded + Blocks(left) == [0x78, 0x01] + Blocks(raw)
      decreases |left|
    {
      var blockSize := if |left| < 65535 then |left| else 65535;
      ghost var was := encoded;
      ghost var rest := Blocks(left[blockSize..]);
      BlocksFirst(left);
      if blockSize == |left| {
        encoded := encoded + [0x01];
      } else {
        encoded := encoded + [0x00];
      }
      var length := blockSize % 0x1_0000;
      encoded := encoded + PutLE16(length);
      encoded := encoded + PutLE16(Not16(length));
      encoded := encoded + left[..blockSize];
      AppendBlock(was, if blockSize == |left| then 1 else 0, PutLE16(length), PutLE16(Not16(length)), left[..blockSize], rest);
      left := left[blockSize..];
    }
    NoBlocks();
    encoded := encoded + PutBE32(checksum);
    BlocksLength(raw);
    StoredLength(raw, adler);
  }

  lemma BlocksFirst(raw: seq<Byte>)
    requires raw != []
    ensures Blocks(raw) == Block(raw) + Blocks(raw[BlockSize(raw)..])
  {
  }

  /** Five appends in a row are one append of the five parts. */
  lemma AppendBlock(was: seq<Byte>, flag: Byte, len: seq<Byte>, nlen: seq<Byte>, data: seq<Byte>, rest: seq<Byte>)
    ensures was + ([flag] + len + nlen + data + rest) == was + [flag] + len + nlen + data + rest
  {
  }

  lemma StoredLength(raw: seq<Byte>, adler: Checksum)
    ensures |Stored(raw, adler)| == 6 + |Blocks(raw)|
  {
  }

  lemma {:induction false} BlocksLength(raw: seq<Byte>)
    ensures |Blocks(raw)| == |raw| + 5 * ((|raw| + 65534) / 65535)
    decreases |raw|
  {
    if raw != [] {
      var n := BlockSize(raw);
      BlocksLength(raw[n..]);
    }
  }

  // ---------------------------------------------------------------- the reader

  datatype Inflated = Bad | Inflated(data: seq<Byte>, rest: seq<Byte>)

  /** Section 3.2 of RFC 1951 for streams of stored blocks: BFINAL is bit 0, BTYPE bits 1-2,
      the rest of the first byte is skipped, LEN and NLEN must be complements. */
  function Inflate(s: seq<Byte>): Inflated
    decreases |s|
  {
    if |s| < 5 || s[0] / 2 % 4 != 0 then Bad
    else
      var len := GetLE16(s[1..3]);
      if GetLE16(s[3..5]) != 65535 - len || |s| < 5 + len then Bad
      else
        var data, rest := s[5..5 + len], s[5 + len..];
        if s[0] % 2 == 1 then Inflated(data, rest)
        else
          var more := Inflate(rest);
          if more.Bad? then Bad else Inflated(data + more.data, more.rest)
  }

  /** Section 2.2 of RFC 1950: CM 8, CINFO at most 7, header check, no preset dictionary,
      compressed data, checksum, nothing after it. */
  function Unzip(s: seq<Byte>, adler: Checksum): Option<seq<Byte>> {
    if |s| < 2 || s[0] % 16 != 8 || s[0] / 16 > 7 || (256 * (s[0] as int) + s[1] as int) % 31 != 0 || s[1] / 32 % 2 != 0 then None
    else
      var r := Inflate(s[2..]);
      if r.Bad? || |r.rest| != 4 || GetBE32(r.rest) != adler(r.data) % TWO32 then None
      else Some(r.data)
  }

  lemma BlockLayout(raw: seq<Byte>, tail: seq<Byte>)
    ensures var n := BlockSize(raw);
      var s := Block(raw) + tail;
      && |s| >= 5 + n && s[0] == (if n == |raw| then 1 else 0)
      && s[1..3] == PutLE16(n) && s[3..5] == PutLE16(Not16(n))
      && s[5..5 + n] == raw[..n] && s[5 + n..] == tail
  {
  }

  lemma InflateBlock(raw: seq<Byte>, tail: seq<Byte>)
    ensures var n := BlockSize(raw);
      Inflate(Block(raw) + tail) ==
        if n == |raw| then Inflated(raw, tail)
        else if Inflate(tail).Bad? then Bad
        else Inflated(raw[..n] + Inflate(tail).data, Inflate(tail).rest)
  {
    hide PutLE16, GetLE16, Block, BlockSize;
    var n := BlockSize(raw);
    var s := Block(raw) + tail;
    BlockLayout(raw, tail);
    LE16RoundTrip(n);
    LE16RoundTrip(Not16(n));
    assert n == |raw| ==> raw[..n] == raw;
  }

  /** Every block but the last is read as not final, the last as final, and the reader stops
      exactly where the checksum starts. */
  lemma {:induction false} InflateBlocks(raw: seq<Byte>, tail: seq<Byte>)
    requires raw != []
    ensures Inflate(Blocks(raw) + tail) == Inflated(raw, tail)
    decreases |raw|
  {
    hide Block, Inflate;
    var n := BlockSize(raw);
    var rest := raw[n..];
    InflateBlock(raw, Blocks(rest) + tail);
    assert Blocks(raw) + tail == Block(raw) + (Blocks(rest) + tail);
    if n == |raw| {
      assert Blocks(rest) + tail == tail;
    } else {
      InflateBlocks(rest, tail);
      assert raw[..n] + rest == raw;
    }
  }

  lemma NoBlocks()
    ensures Blocks([]) == []
  {
  }

  /** The stream reads back, except that of an empty input, which has no final block. */
  lemma StoredRoundTrip(raw: seq<Byte>, adler: Checksum)
    ensures Unzip(Stored(raw, adler), adler) == Some(raw) <==> raw != []
  {
    hide Blocks, PutBE32, GetBE32, GetLE16;
    var s := Stored(raw, adler);
    var sum := PutBE32(adler(raw));
    assert s[2..] == Blocks(raw) + sum;
    if raw != [] {
      InflateBlocks(raw, sum);
      BE32RoundTrip(adler(raw));
    } else {
      NoBlocks();
      assert s[2..] == sum;
    }
  }

  // ---------------------------------------------------------------- how long a stream must be

  /** Each stored block takes five bytes and carries at most 65535: whatever inflates was at least
      as long as this writer would make it. */
  lemma {:induction false} InflatedLength(s: seq<Byte>) returns (blocks: nat)
    requires !Inflate(s).Bad?
    ensures var r := Inflate(s);
      blocks >= 1 && |s| == 5 * blocks + |r.data| + |r.rest| && |r.data| <= MAX_BLOCK * blocks
    decreases |s|
  {
    hide GetLE16;
    var len := GetLE16(s[1..3]);
    LE16IsShort(s[1..3]);
    blocks := 1;
    if s[0] % 2 != 1 {
      blocks := InflatedLength(s[5 + len..]);
      blocks := blocks + 1;
    }
  }

  lemma LE16IsShort(s: seq<Byte>)
    requires |s| == 2
    ensures GetLE16(s) <= MAX_BLOCK
  {
  }

  function StreamLength(n: nat): nat {
    6 + n + 5 * ((n + 65534) / 65535)
  }

  lemma UnzippedLength(s: seq<Byte>, adler: Checksum)
    requires Unzip(s, adler).Some?
    ensures |s| >= StreamLength(|Unzip(s, adler).value|)
  {
    hide Inflate, GetBE32;
    var blocks := InflatedLength(s[2..]);
    BlocksNeeded(|Unzip(s, adler).value|, blocks);
  }

  lemma BlocksNeeded(n: nat, blocks: nat)
    requires n <= MAX_BLOCK * blocks
    ensures (n + 65534) / 65535 <= blocks
  {
  }

  // ---------------------------------------------------------------- the stream, byte by byte

  /** The two header bytes of the stream, and its checksum at the end, most significant byte first. */
  lemma StreamFrame(raw: seq<Byte>, adler: Checksum)
    ensures var s := Stored(raw, adler); var n := |s|;
      && n >= 6 && s[..2] == [0x78, 0x01]
      && 0x100_0000 * (s[n - 4] as int) + 0x1_0000 * (s[n - 3] as int) + 0x100 * (s[n - 2] as int) + s[n - 1] as int
           == adler(raw) % 0x1_0000_0000
  {
    hide Blocks, PutBE32;
    BigEndian(adler(raw));
    var s, sum := Stored(raw, adler), PutBE32(adler(raw));
    assert s[|s| - 4..] == sum;
  }

  /** The first block of a stream: at most 65535 bytes of data behind the final flag, their number
      and its complement, low byte first; the stream goes on as that of what is left. */
  lemma FirstBlock(raw: seq<Byte>, adler: Checksum)
    requires raw != []
    ensures var s := Stored(raw, adler); var n := if |raw| < 65535 then |raw| else 65535;
      && |s| >= 7 + n && s[2] == (if n == |raw| then 1 else 0)
      && s[3] as int + 256 * (s[4] as int) == n && s[5] as int + 256 * (s[6] as int) == 65535 - n
      && s[7..7 + n] == raw[..n]
      && s[7 + n..|s| - 4] == Stored(raw[n..], adler)[2..|Stored(raw[n..], adler)| - 4]
  {
    var n := BlockSize(raw);
    BlocksFirst(raw);
    BlockLayout(raw, Blocks(raw[n..]) + PutBE32(adler(raw)));
    LittleEndian(n);
    LittleEndian(Not16(n));
    hide Block, Blocks, BlockSize, PutLE16, PutBE32;
    var s, b := Stored(raw, adler), Block(raw) + (Blocks(raw[n..]) + PutBE32(adler(raw)));
    assert s == [0x78, 0x01] + b;
    assert s[2] == b[0] && s[3] == b[1..3][0] && s[4] == b[1..3][1] && s[5] == b[3..5][0] && s[6] == b[3..5][1];
    assert s[7..7 + n] == b[5..5 + n] && s[7 + n..] == b[5 + n..];
    assert s[7 + n..|s| - 4] == Blocks(raw[n..]);
    var t := Stored(raw[n..], adler);
    assert t[2..|t| - 4] == Blocks(raw[n..]);
  }
}
