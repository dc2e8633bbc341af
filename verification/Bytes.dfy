/**
 Byte strings, big-endian integers and length-prefixed fields: the alphabet of
 every wire format of the tunnel. Go strings are byte strings, so identifiers,
 addresses and payloads are all `bytes` here.
 */
module Bytes {
  type byte = x: int | 0 <= x < 256
  type bytes = seq<byte>

  const COLON: byte := 58

  /** What binary.BigEndian.PutUint16(b, uint16(n)) writes: the conversion truncates. */
  function Be16(n: nat): bytes {
    [n / 256 % 256, n % 256]
  }

  /** What binary.BigEndian.Uint16 reads at an offset. */
  function U16(b: bytes, at: nat): (n: nat)
    requires at + 2 <= |b|
    ensures n < 65536
  {
    (b[at] as int) * 256 + b[at + 1]
  }

  function Be32(n: nat): bytes {
    Be16(n / 65536) + Be16(n)
  }

  function U32(b: bytes, at: nat): (n: nat)
    requires at + 4 <= |b|
    ensures n < 0x1_0000_0000
  {
    U16(b, at) * 65536 + U16(b, at + 2)
  }

  function Be64(n: nat): bytes {
    Be32(n / 0x1_0000_0000) + Be32(n)
  }

  function U64(b: bytes, at: nat): (n: nat)
    requires at + 8 <= |b|
    ensures n < 0x1_0000_0000_0000_0000
  {
    U32(b, at) * 0x1_0000_0000 + U32(b, at + 4)
  }

  /** A two-byte length followed by the field itself. */
  function Field(f: bytes): bytes {
    Be16(|f|) + f
  }

  lemma ConcatAssoc(a: bytes, b: bytes, c: bytes)
    ensures a + b + c == a + (b + c)
  {
  }

  /** `x` is what stands in `p` from offset `at` on. */
  ghost predicate StartsAt(p: bytes, at: nat, x: bytes) {
    at + |x| <= |p| && p[at..at + |x|] == x
  }

  lemma StartsAtConcat(p: bytes, at: nat, x: bytes, y: bytes)
    ensures StartsAt(p, at, x + y) <==> StartsAt(p, at, x) && StartsAt(p, at + |x|, y)
  {
    if at + |x| + |y| <= |p| {
      var whole := p[at..at + |x| + |y|];
      assert whole[..|x|] == p[at..at + |x|];
      assert whole[|x|..] == p[at + |x|..at + |x| + |y|];
      assert whole == whole[..|x|] + whole[|x|..];
      assert (x + y)[..|x|] == x && (x + y)[|x|..] == y;
    }
  }

  lemma StartsAtByte(p: bytes, at: nat, b: byte)
    ensures StartsAt(p, at, [b]) <==> at < |p| && p[at] == b
  {
    if at < |p| {
      assert p[at..at + 1] == [p[at]];
    }
  }

  lemma StartsAtU16(p: bytes, at: nat, n: nat)
    requires n < 65536
    ensures StartsAt(p, at, Be16(n)) <==> at + 2 <= |p| && U16(p, at) == n
  {
    if at + 2 <= |p| {
      assert p[at..at + 2] == [p[at], p[at + 1]];
    }
  }

  lemma Be32Truncates(hi: nat, lo: nat)
    ensures Be32(hi * 0x1_0000_0000 + lo) == Be32(lo)
  {
    var n := hi * 0x1_0000_0000 + lo;
    assert n == lo + 65536 * (hi * 65536);
    assert n / 65536 == lo / 65536 + hi * 65536;
    assert n % 65536 == lo % 65536;
    Be16Truncates(hi * 65536, lo);
    Be16Truncates(hi, lo / 65536);
  }

  lemma Be16Truncates(hi: nat, lo: nat)
    ensures Be16(hi * 65536 + lo) == Be16(lo)
  {
    var n := hi * 65536 + lo;
    assert n == lo + 256 * (hi * 256);
    ShiftByte(lo, hi * 256);
    assert lo / 256 + hi * 256 == lo / 256 + 256 * hi;
    ShiftByte(lo / 256, hi);
  }

  /** A multiple of 256 moves the quotient and leaves the last byte alone. */
  lemma ShiftByte(n: nat, k: nat)
    ensures (n + 256 * k) / 256 == n / 256 + k && (n + 256 * k) % 256 == n % 256
  {
    var q, r := n / 256, n % 256;
    assert n + 256 * k == 256 * (q + k) + r;
  }

  lemma StartsAtU32(p: bytes, at: nat, n: nat)
    requires n < 0x1_0000_0000
    ensures StartsAt(p, at, Be32(n)) <==> at + 4 <= |p| && U32(p, at) == n
  {
    StartsAtConcat(p, at, Be16(n / 65536), Be16(n));
    StartsAtU16(p, at, n / 65536);
    Be16Truncates(n / 65536, n % 65536);
    StartsAtU16(p, at + 2, n % 65536);
  }

  lemma StartsAtU64(p: bytes, at: nat, n: nat)
    requires n < 0x1_0000_0000_0000_0000
    ensures StartsAt(p, at, Be64(n)) <==> at + 8 <= |p| && U64(p, at) == n
  {
    var hi, lo := n / 0x1_0000_0000, n % 0x1_0000_0000;
    StartsAtConcat(p, at, Be32(hi), Be32(n));
    StartsAtU32(p, at, hi);
    Be32Truncates(hi, lo);
    StartsAtU32(p, at + 4, lo);
  }

  /** Reading back a length-prefixed field, both directions. */
  lemma StartsAtField(p: bytes, at: nat, f: bytes)
    requires |f| < 65536
    ensures StartsAt(p, at, Field(f)) <==>
            at + 2 + |f| <= |p| && U16(p, at) == |f| && p[at + 2..at + 2 + |f|] == f
  {
    StartsAtConcat(p, at, Be16(|f|), f);
    StartsAtU16(p, at, |f|);
  }

  lemma StartsAtPrefix(p: bytes, x: bytes)
    ensures StartsAt(p, 0, x) <==> x <= p
  {
  }

  /**
   One write of an encoder at its moving offset: an assignment, PutUint16 or
   copy into buf[at:]. Everything outside the written window is kept.
   */
  method PutBytes(buf: array<byte>, at: nat, x: bytes)
    requires at + |x| <= buf.Length
    modifies buf
    ensures buf[..at + |x|] == old(buf[..at]) + x
    ensures buf[at + |x|..] == old(buf[at + |x|..])
  {
    forall i | 0 <= i < |x| {
      buf[at + i] := x[i];
    }
  }

  /** PutBytes for a buffer filled from the front: `w` is what has been written so far. */
  method Append(buf: array<byte>, at: nat, x: bytes, ghost w: bytes) returns (end: nat)
    requires at + |x| <= buf.Length && buf[..at] == w
    modifies buf
    ensures end == at + |x| && buf[..end] == w + x
  {
    PutBytes(buf, at, x);
    end := at + |x|;
  }

  lemma FieldLength(f: bytes)
    ensures |Field(f)| == 2 + |f|
  {
  }

  lemma DropThenSlice(s: bytes, a: nat, i: nat, j: nat)
    requires a + j <= |s| && i <= j
    ensures s[a..][i..j] == s[a + i..a + j] && s[a..][j..] == s[a + j..]
  {
  }

  lemma DropThenU16(s: bytes, a: nat)
    requires a + 2 <= |s|
    ensures U16(s[a..], 0) == U16(s, a)
  {
  }

  lemma SliceOfPrefix(b: bytes, n: nat, i: nat, j: nat)
    requires i <= j <= n <= |b|
    ensures b[..n][i..j] == b[i..j]
  {
  }

  lemma SameTail(a: bytes, b: bytes, i: nat, j: nat)
    requires |a| == |b| && i <= j <= |a| && a[i..] == b[i..]
    ensures a[j..] == b[j..]
  {
    assert a[j..] == a[i..][j - i..] && b[j..] == b[i..][j - i..];
  }

  /** The bytes of a text, for stating formats. */
  function Ascii(s: string): (b: bytes)
    ensures |b| == |s|
  {
    seq(|s|, i requires 0 <= i < |s| => s[i] as int % 256)
  }

  /** Most significant byte first, in both directions. */
  lemma BigEndian()
    ensures Be16(0x0102) == [1, 2] && U16([1, 2], 0) == 0x0102
    ensures Be32(0x0102_0304) == [1, 2, 3, 4] && U32([1, 2, 3, 4], 0) == 0x0102_0304
    ensures Be64(0x0102_0304_0506_0708) == [1, 2, 3, 4, 5, 6, 7, 8]
    ensures U64([1, 2, 3, 4, 5, 6, 7, 8], 0) == 0x0102_0304_0506_0708
  {
  }
}
