/**
 Decimal numbers: the hand-written printer of the text protocol, the parser the
 decoder uses on its output, and the "%d" format of the replay key.
 */
module Decimal {
  import opened Bytes
  import opened Prelude

  const ZERO: byte := 48
  const PLUS: byte := 43
  const MINUS: byte := 45

  /** The decimal digits of a natural number, most significant first. */
  function Digits(n: nat): (d: bytes)
    ensures |d| >= 1
  {
    if n < 10 then [ZERO + n] else Digits(n / 10) + [ZERO + n % 10]
  }

  predicate IsDigit(b: byte) {
    ZERO <= b <= ZERO + 9
  }

  predicate AllDigits(s: bytes) {
    forall i :: 0 <= i < |s| ==> IsDigit(s[i])
  }

  function Value(s: bytes): int {
    if s == [] then 0 else Value(s[..|s| - 1]) * 10 + (s[|s| - 1] as int - ZERO)
  }

  /** strconv.Atoi: an optional sign, at least one digit, an int64 value. */
  function Atoi(s: bytes): Option<int> {
    var signed := s != [] && (s[0] == PLUS || s[0] == MINUS);
    var digits := if signed then s[1..] else s;
    if digits == [] || !AllDigits(digits) then None
    else
      var v := if signed && s[0] == MINUS then -Value(digits) else Value(digits);
      if -MAX_INT64 - 1 <= v <= MAX_INT64 then Some(v) else None
  }

  /** The "%d" verb. */
  function FormatInt(t: int): bytes {
    if t < 0 then [MINUS] + Digits(-t) else Digits(t)
  }

  lemma {:induction false} DigitsParse(n: nat)
    ensures AllDigits(Digits(n)) && Value(Digits(n)) == n
  {
    if n < 10 {
      var d := Digits(n);
      assert d[..|d| - 1] == [];
    } else {
      DigitsParse(n / 10);
      var d := Digits(n);
      assert d[..|d| - 1] == Digits(n / 10);
    }
  }

  /** Parsing inverts printing on everything an int64 can hold. */
  lemma AtoiDigits(n: nat)
    requires n <= MAX_INT64
    ensures Atoi(Digits(n)) == Some(n)
  {
    DigitsParse(n);
    assert IsDigit(Digits(n)[0]);
  }

  /** The ten digits that the frame-size estimate reserves are enough exactly below 10^10. */
  lemma TenDigits(n: nat)
    ensures |Digits(n)| <= 10 <==> n < 10_000_000_000
  {
    DigitsWidth(n, 10);
    TenthPower();
  }

  function Pow10(k: nat): (p: nat)
    ensures p >= 1
  {
    if k == 0 then 1 else 10 * Pow10(k - 1)
  }

  lemma TenthPower()
    ensures Pow10(10) == 10_000_000_000
  {
    assert Pow10(4) == 10_000;
    assert Pow10(8) == 100_000_000;
  }

  lemma {:induction false} DigitsWidth(n: nat, k: nat)
    requires k >= 1
    ensures |Digits(n)| <= k <==> n < Pow10(k)
  {
    if k == 1 {
      assert Pow10(1) == 10;
    } else if n >= 10 {
      DigitsWidth(n / 10, k - 1);
      assert Pow10(k) == 10 * Pow10(k - 1);
      assert n / 10 < Pow10(k - 1) <==> n < 10 * Pow10(k - 1);
    }
  }

  /** Distinct integers print differently, signs included. */
  lemma FormatInjective(a: int, b: int)
    requires FormatInt(a) == FormatInt(b)
    ensures a == b
  {
    var x, y := Digits(if a < 0 then -a else a), Digits(if b < 0 then -b else b);
    DigitsParse(if a < 0 then -a else a);
    DigitsParse(if b < 0 then -b else b);
    assert IsDigit(x[0]) && IsDigit(y[0]);
    if a < 0 {
      assert FormatInt(a)[0] == MINUS && FormatInt(b)[0] == MINUS;
      assert FormatInt(a)[1..] == x && FormatInt(b)[1..] == y;
    } else {
      assert b >= 0;
    }
  }

  function Reverse(s: bytes): (r: bytes)
    ensures |r| == |s|
    ensures forall i :: 0 <= i < |s| ==> r[i] == s[|s| - 1 - i]
  {
    if s == [] then [] else Reverse(s[1..]) + [s[0]]
  }

  /** The digits still to be written: empty once the number has been used up. */
  function Pending(n: int): bytes {
    if n <= 0 then [] else Digits(n)
  }

  lemma ReverseSnoc(s: bytes, b: byte)
    ensures Reverse(s + [b]) == [b] + Reverse(s)
  {
  }

  /** One turn of the digit loop moves the last pending digit to the front of the reversed output. */
  lemma DigitStep(n: nat, written: bytes)
    requires n > 0
    ensures Pending(n) + Reverse(written) == Pending(n / 10) + Reverse(written + [ZERO + n % 10])
    ensures |Pending(n)| == |Pending(n / 10)| + 1
  {
    ReverseSnoc(written, ZERO + n % 10);
  }

  /** The first loop of writeInt: the digits, least significant first. */
  method WriteReversed(buf: array<byte>, start: nat, number: nat) returns (offset: nat)
    requires start + |Pending(number)| <= buf.Length
    modifies buf
    ensures offset == start + |Pending(number)|
    ensures Reverse(buf[start..offset]) == Pending(number)
    ensures forall k :: 0 <= k < buf.Length && !(start <= k < offset) ==> buf[k] == old(buf[k])
  {
    var n := number;
    offset := start;
    ghost var written: bytes := [];
    while n > 0
      invariant start <= offset && offset + |Pending(n)| == start + |Pending(number)|
      invariant buf[start..offset] == written
      invariant Pending(number) == Pending(n) + Reverse(written)
      invariant forall k :: 0 <= k < buf.Length && !(start <= k < offset) ==> buf[k] == old(buf[k])
    {
      DigitStep(n, written);
      buf[offset] := ZERO + n % 10;
      assert buf[start..offset + 1] == buf[start..offset] + [ZERO + n % 10];
      written := written + [ZERO + n % 10];
      offset := offset + 1;
      n := n / 10;
    }
  }

  /**
   writeInt: digits are produced least significant first and then reversed in
   place. A negative number writes nothing. Go's bounds check is the room
   precondition.
   */
  method WriteInt(buf: array<byte>, start: nat, number: int) returns (end: nat)
    requires start + (if number < 0 then 0 else |Digits(number)|) <= buf.Length
    modifies buf
    ensures end == start + (if number < 0 then 0 else |Digits(number)|)
    ensures number >= 0 ==> buf[start..end] == Digits(number)
    ensures forall k :: 0 <= k < buf.Length && !(start <= k < end) ==> buf[k] == old(buf[k])
  {
    if number == 0 {
      buf[start] := ZERO;
      return start + 1;
    }
    if number < 0 {
      return start;
    }
    end := WriteReversed(buf, start, number);
    ReverseInPlace(buf, start, end);
  }

  /** The swapping loop of writeInt. */
  method ReverseInPlace(buf: array<byte>, start: nat, end: nat)
    requires start <= end <= buf.Length
    modifies buf
    ensures buf[start..end] == Reverse(old(buf[start..end]))
    ensures forall k :: 0 <= k < buf.Length && !(start <= k < end) ==> buf[k] == old(buf[k])
  {
    ghost var was := buf[..];
    var i, j := start, end - 1;
    while i < j
      invariant start <= i <= end && i + j == start + end - 1
      invariant forall k :: 0 <= k < buf.Length && !(start <= k < i) && !(j < k < end) ==> buf[k] == was[k]
      invariant forall k :: start <= k < i ==> buf[k] == was[start + end - 1 - k]
      invariant forall k :: j < k < end ==> buf[k] == was[start + end - 1 - k]
    {
      buf[i], buf[j] := buf[j], buf[i];
      i, j := i + 1, j - 1;
    }
    ReversedWindow(was, buf[..], start, end);
  }

  lemma ReversedWindow(was: bytes, now: bytes, start: nat, end: nat)
    requires start <= end <= |was| == |now|
    requires forall k :: start <= k < end ==> now[k] == was[start + end - 1 - k]
    ensures now[start..end] == Reverse(was[start..end])
  {
  }

  /** strconv.Atoi of digits behind a plus sign (43), a minus sign (45) or none: the value if it is an int64. */
  lemma AtoiSigned(n: nat)
    ensures Atoi(Digits(n)) == Within64(n) && Atoi([43] + Digits(n)) == Within64(n)
    ensures Atoi([45] + Digits(n)) == Within64(-(n as int))
  {
    DigitsParse(n);
    var d := Digits(n);
    assert IsDigit(d[0]);
    hide Digits, Value, AllDigits;
    AfterSign(43, d);
    AfterSign(45, d);
  }

  lemma AfterSign(sign: byte, d: bytes)
    ensures ([sign] + d)[1..] == d
  {
  }

  function Within64(v: int): Option<int> {
    if -0x8000_0000_0000_0000 <= v <= 0x7FFF_FFFF_FFFF_FFFF then Some(v) else None
  }

  /** Parsing inverts the "%d" format on every int64. */
  lemma AtoiFormat(t: int)
    requires -0x8000_0000_0000_0000 <= t <= 0x7FFF_FFFF_FFFF_FFFF
    ensures Atoi(FormatInt(t)) == Some(t)
  {
    AtoiSigned(if t < 0 then -t else t);
    hide Atoi, Digits;
  }

  /** Anything with a character that is neither a digit nor a leading sign, and the lack of digits, is an error. */
  lemma AtoiRejects(s: bytes, i: nat)
    requires i < |s| && !(48 <= s[i] <= 57) && (i > 0 || (s[i] != 43 && s[i] != 45) || |s| == 1)
    ensures Atoi(s) == None && Atoi([]) == None
  {
    if i > 0 && (s[0] == PLUS || s[0] == MINUS) {
      assert s[1..][i - 1] == s[i];
    }
  }

  /** Dividing by ten and then by p is dividing by 10p. */
  lemma DivideTwice(n: nat, p: nat)
    requires p >= 1
    ensures n / 10 / p == n / (10 * p)
  {
    var q := n / 10 / p;
    assert q * p <= n / 10 < q * p + p;
    assert q * (10 * p) == 10 * (q * p) && (q + 1) * (10 * p) == 10 * (q * p + p);
    QuotientIs(n, 10 * p, q);
  }

  lemma QuotientIs(n: nat, d: nat, q: nat)
    requires d >= 1 && q * d <= n < (q + 1) * d
    ensures n / d == q
  {
    var k := n / d;
    assert k * d <= n < (k + 1) * d;
    if k < q {
      KeepsOrder(k + 1, q, d);
    } else if q < k {
      KeepsOrder(q + 1, k, d);
    }
  }

  lemma KeepsOrder(a: nat, b: nat, d: nat)
    requires a <= b
    ensures a * d <= b * d
  {
  }

  /** The i-th digit from the left is the ASCII digit (48 is zero) of its power of ten. */
  lemma {:induction false} DigitAt(n: nat, i: nat)
    requires i < |Digits(n)|
    ensures Digits(n)[i] == 48 + n / Pow10(|Digits(n)| - 1 - i) % 10
  {
    var w := |Digits(n)|;
    if n >= 10 && i < w - 1 {
      assert Digits(n)[i] == Digits(n / 10)[i] && |Digits(n / 10)| == w - 1;
      DigitAt(n / 10, i);
      DivideTwice(n, Pow10(w - 2 - i));
    }
  }
}
