/** Octets, and 16-bit and 32-bit values in network byte order. */
module Bytes {
  type byte = b: int | 0 <= b < 256

  const WORD: int := 0x1_0000
  const LONG: int := 0x1_0000_0000

  function Put16(n: nat): (r: seq<byte>)
    requires n < WORD
    ensures |r| == 2
  {
    [n / 256, n % 256]
  }

  function Get16(s: seq<byte>, at: nat): (r: nat)
    requires at + 2 <= |s|
    ensures r < WORD
  {
    s[at] as int * 256 + s[at + 1] as int
  }

  function Put32(n: nat): (r: seq<byte>)
    requires n < LONG
    ensures |r| == 4
  {
    [n / 0x100_0000, (n / 0x1_0000) % 256, (n / 0x100) % 256, n % 256]
  }

  function Get32(s: seq<byte>, at: nat): (r: nat)
    requires at + 4 <= |s|
    ensures r < LONG
  {
    s[at] as int * 0x100_0000 + s[at + 1] as int * 0x1_0000 + s[at + 2] as int * 0x100 + s[at + 3] as int
  }

  lemma RoundTrip16(n: nat)
    requires n < WORD
    ensures Get16(Put16(n), 0) == n
  {
  }

  lemma RoundTrip32(n: nat)
    requires n < LONG
    ensures Get32(Put32(n), 0) == n
  {
    var a, b, c, d := n / 0x100_0000, (n / 0x1_0000) % 256, (n / 0x100) % 256, n % 256;
    assert n / 0x100 == (n / 0x1_0000) * 256 + c;
    assert n / 0x1_0000 == a * 256 + b;
    assert n == (n / 0x100) * 256 + d;
  }

  function Zeros(n: nat): (r: seq<byte>)
    ensures |r| == n
  {
    seq(n, _ => 0)
  }
}
