/** Bytes and fixed-width integers as the encoders write them. */
module Bytes {
  type Byte = x: int | 0 <= x < 256

  const TWO16: nat := 0x1_0000
  const TWO31: nat := 0x8000_0000
  const TWO32: nat := 0x1_0000_0000

  /** Big-endian uint32 of `n`, truncated as the conversion `uint32(n)` truncates. */
  function PutBE32(n: nat): (s: seq<Byte>)
    ensures |s| == 4
  {
    [n / 0x100_0000 % 256, n / 0x1_0000 % 256, n / 0x100 % 256, n % 256]
  }

  function GetBE32(s: seq<Byte>): nat
    requires |s| == 4
  {
    0x100_0000 * (s[0] as int) + 0x1_0000 * (s[1] as int) + 0x100 * (s[2] as int) + s[3] as int
  }

  function PutLE16(n: nat): (s: seq<Byte>)
    ensures |s| == 2
  {
    [n % 256, n / 256 % 256]
  }

  function GetLE16(s: seq<Byte>): nat
    requires |s| == 2
  {
    s[0] as int + 256 * (s[1] as int)
  }

  lemma BE32RoundTrip(n: nat)
    ensures GetBE32(PutBE32(n)) == n % TWO32
  {
    var a := n / 256;
    var b := a / 256;
    var c := b / 256;
    assert n / 0x1_0000 == b && n / 0x100_0000 == c;
    assert n == 256 * a + n % 256;
    assert a == 256 * b + a % 256;
    assert b == 256 * c + b % 256;
    assert c == 256 * (c / 256) + c % 256;
    var low := 0x100_0000 * (c % 256) + 0x1_0000 * (b % 256) + 0x100 * (a % 256) + n % 256;
    assert n == TWO32 * (c / 256) + low;
    assert 0 <= low < TWO32;
    ModOf(n, c / 256, low);
  }

  lemma ModOf(n: nat, q: nat, r: nat)
    requires n == TWO32 * q + r && r < TWO32
    ensures n % TWO32 == r
  {
  }

  lemma LE16RoundTrip(n: nat)
    requires n < TWO16
    ensures GetLE16(PutLE16(n)) == n
  {
  }

  /** The first byte counts most. */
  lemma BigEndian(n: nat)
    ensures var s := PutBE32(n);
      0x100_0000 * (s[0] as int) + 0x1_0000 * (s[1] as int) + 0x100 * (s[2] as int) + s[3] as int == n % 0x1_0000_0000
  {
    BE32RoundTrip(n);
  }

  /** The first byte counts least. */
  lemma LittleEndian(n: nat)
    requires n < 0x1_0000
    ensures var s := PutLE16(n); s[0] as int + 256 * (s[1] as int) == n
  {
  }
}
