/**
 Bytes, little-endian words, and `memcpy` into the middle of a buffer: what heap headers, the
 contents of pages and the calls on the wire are all made of. A byte is an integer below 256.
 */
module Bytes {
  type byte = b: int | 0 <= b < 256

  const WORD: nat := 0x1_0000_0000

  /** A `uint32_t` as it lies in memory. */
  function Le32(n: nat): (r: seq<byte>)
    requires n < WORD
  {
    [n % 256, n / 256 % 256, n / 65536 % 256, n / 16777216]
  }

  function FromLe32(b: seq<byte>): (n: nat)
    requires |b| == 4
  {
    b[0] as int + 256 * (b[1] as int) + 65536 * (b[2] as int) + 16777216 * (b[3] as int)
  }

  /** A `uint16_t` as it lies in memory. */
  function Le16(n: nat): (r: seq<byte>)
    requires n < 65536
  {
    [n % 256, n / 256]
  }

  function FromLe16(b: seq<byte>): (n: nat)
    requires |b| == 2
  {
    b[0] as int + 256 * (b[1] as int)
  }

  lemma Le32RoundTrip(n: nat)
    requires n < WORD
    ensures FromLe32(Le32(n)) == n
  {
    assert n / 256 == n / 65536 * 256 + n / 256 % 256;
    assert n / 65536 == n / 16777216 * 256 + n / 65536 % 256;
  }

  lemma Le16RoundTrip(n: nat)
    requires n < 65536
    ensures FromLe16(Le16(n)) == n
  {
  }

  /** `memcpy(s + at, x, |x|)`. */
  function Splice<T>(s: seq<T>, at: nat, x: seq<T>): (r: seq<T>)
    requires at + |x| <= |s|
    ensures |r| == |s|
  {
    s[..at] + x + s[at + |x|..]
  }

  /** A slice that a `Splice` does not touch. */
  lemma SpliceElsewhere<T>(s: seq<T>, at: nat, x: seq<T>, lo: nat, hi: nat)
    requires at + |x| <= |s| && lo <= hi <= |s|
    requires hi <= at || at + |x| <= lo || hi == lo
    ensures Splice(s, at, x)[lo..hi] == s[lo..hi]
  {
  }

  /** A write cut in two. */
  lemma SpliceTwice(s: seq<byte>, at: nat, x: seq<byte>, y: seq<byte>)
    requires at + |x| + |y| <= |s|
    ensures Splice(Splice(s, at, x), at + |x|, y) == Splice(s, at, x + y)
  {
  }

  lemma SpliceNone(s: seq<byte>, at: nat)
    requires at <= |s|
    ensures Splice(s, at, []) == s
  {
  }
}
