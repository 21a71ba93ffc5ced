/** Numbers as `hexStringToUint` and `stringToUint` read them. */
module Numbers {
  import opened Wrappers

  /** One more than the largest `std::size_t`. */
  const SIZE_LIMIT: int := 0x1_0000_0000_0000_0000

  predicate IsDigit(c: char) { '0' <= c <= '9' }

  predicate IsHexDigit(c: char) { IsDigit(c) || 'A' <= c <= 'F' || 'a' <= c <= 'f' }

  /** The value of a hex digit in either case; 0 for any other character. */
  function DigitValue(c: char): (d: nat)
    ensures d < 16
  {
    if !IsHexDigit(c) then 0
    else if IsDigit(c) then c as int - '0' as int
    else if c <= 'F' then c as int - 'A' as int + 10
    else c as int - 'a' as int + 10
  }

  ghost predicate AllHex(s: string) { forall i :: 0 <= i < |s| ==> IsHexDigit(s[i]) }

  ghost predicate AllDigits(s: string) { forall i :: 0 <= i < |s| ==> IsDigit(s[i]) }

  /** The unbounded value of a numeral, in base 10 or 16. */
  function Value(base: nat, s: string): nat {
    if s == [] then 0 else base * Value(base, s[..|s| - 1]) + DigitValue(s[|s| - 1])
  }

  /** `T(16) * result + hexDigitToUint(*i)` over a `std::size_t`: an unreadable digit throws and
      the arithmetic wraps. What comes out is the value of the numeral modulo 2^64. */
  method HexStringToUint(s: string) returns (r: Option<nat>)
    ensures r == HexOf(s)
  {
    var result: nat := 0;
    var i := 0;
    while i < |s|
      invariant 0 <= i <= |s|
      invariant AllHex(s[..i])
      invariant result == Value(16, s[..i]) % SIZE_LIMIT
    {
      if !IsHexDigit(s[i]) { return None; }
      assert s[..i + 1][..i] == s[..i];
      WrapStep(16, Value(16, s[..i]), DigitValue(s[i]));
      result := (16 * result + DigitValue(s[i])) % SIZE_LIMIT;
      i := i + 1;
    }
    assert s[..i] == s;
    return Some(result);
  }

  /** `stringToUint<std::size_t>`, the decimal twin. */
  method StringToUint(s: string) returns (r: Option<nat>)
    ensures r == DecimalOf(s)
  {
    var result: nat := 0;
    var i := 0;
    while i < |s|
      invariant 0 <= i <= |s|
      invariant AllDigits(s[..i])
      invariant result == Value(10, s[..i]) % SIZE_LIMIT
    {
      if !IsDigit(s[i]) { return None; }
      assert s[..i + 1][..i] == s[..i];
      WrapStep(10, Value(10, s[..i]), DigitValue(s[i]));
      result := (10 * result + DigitValue(s[i])) % SIZE_LIMIT;
      i := i + 1;
    }
    assert s[..i] == s;
    return Some(result);
  }

  ghost function HexOf(s: string): Option<nat> {
    if AllHex(s) then Some(Value(16, s) % SIZE_LIMIT) else None
  }

  ghost function DecimalOf(s: string): Option<nat> {
    if AllDigits(s) then Some(Value(10, s) % SIZE_LIMIT) else None
  }

  /** Wrapping at every digit is the same as wrapping once at the end. */
  lemma WrapStep(base: nat, v: nat, d: nat)
    requires base == 10 || base == 16
    ensures (base * (v % SIZE_LIMIT) + d) % SIZE_LIMIT == (base * v + d) % SIZE_LIMIT
  {
    var q, r := v / SIZE_LIMIT, v % SIZE_LIMIT;
    assert v == SIZE_LIMIT * q + r;
    AddMultiples(base * r + d, base * q);
    if base == 10 { assert 10 * v + d == 10 * r + d + SIZE_LIMIT * (10 * q); }
    else { assert 16 * v + d == 16 * r + d + SIZE_LIMIT * (16 * q); }
  }

  lemma AddMultiples(x: nat, k: nat)
    ensures (x + SIZE_LIMIT * k) % SIZE_LIMIT == x % SIZE_LIMIT
  {
  }

  // ---- What a numeral stands for

  /** The hex digits in order, in either case. */
  const LOWER_HEX: string := "0123456789abcdef"
  const UPPER_HEX: string := "0123456789ABCDEF"

  lemma TableLength()
    ensures |LOWER_HEX| == |UPPER_HEX| == 16
  {
  }

  /** Sixteen digits, each counting its place. */
  ghost predicate IsTable(table: string) {
    && |table| == 16
    && forall d: nat :: d < 16 ==>
         IsHexDigit(table[d]) && DigitValue(table[d]) == d && (d < 10 ==> IsDigit(table[d]))
  }

  lemma TablesCount()
    ensures IsTable(LOWER_HEX) && IsTable(UPPER_HEX)
  {
    TableLength();
    forall d: nat | d < 16
      ensures IsHexDigit(LOWER_HEX[d]) && DigitValue(LOWER_HEX[d]) == d && (d < 10 ==> IsDigit(LOWER_HEX[d]))
      ensures IsHexDigit(UPPER_HEX[d]) && DigitValue(UPPER_HEX[d]) == d && (d < 10 ==> IsDigit(UPPER_HEX[d]))
    {
      LowerDigit(d);
      UpperDigit(d);
    }
  }

  lemma LowerDigit(d: nat)
    requires d < 16
    ensures |LOWER_HEX| == 16 && IsHexDigit(LOWER_HEX[d]) && DigitValue(LOWER_HEX[d]) == d
    ensures d < 10 ==> IsDigit(LOWER_HEX[d])
  {
  }

  lemma UpperDigit(d: nat)
    requires d < 16
    ensures |UPPER_HEX| == 16 && IsHexDigit(UPPER_HEX[d]) && DigitValue(UPPER_HEX[d]) == d
    ensures d < 10 ==> IsDigit(UPPER_HEX[d])
  {
  }

  /** The digits are those of the tables and no other characters; the first ten are the decimal ones. */
  lemma DigitsExactly(c: char)
    ensures IsHexDigit(c) <==> c in LOWER_HEX || c in UPPER_HEX
    ensures IsDigit(c) <==> c in LOWER_HEX[..10]
  {
    TableLength();
    if IsHexDigit(c) {
      var d := DigitValue(c);
      LowerDigit(d);
      UpperDigit(d);
      assert c == LOWER_HEX[d] || c == UPPER_HEX[d];
      if IsDigit(c) { assert LOWER_HEX[..10][d] == c; }
    }
    forall i: nat | i < 16 ensures IsHexDigit(LOWER_HEX[i]) && IsHexDigit(UPPER_HEX[i]) {
      LowerDigit(i);
      UpperDigit(i);
    }
    forall i: nat | i < 10 ensures IsDigit(LOWER_HEX[..10][i]) { LowerDigit(i); }
  }

  /** Two characters for the same digit. */
  ghost predicate SameDigit(c: char, c': char) {
    exists d: nat :: d < 16 && |LOWER_HEX| == |UPPER_HEX| == 16
                     && (c == LOWER_HEX[d] || c == UPPER_HEX[d]) && (c' == LOWER_HEX[d] || c' == UPPER_HEX[d])
  }

  lemma SameValue(c: char, c': char)
    requires SameDigit(c, c')
    ensures IsHexDigit(c) && IsHexDigit(c') && DigitValue(c) == DigitValue(c')
  {
    var d: nat :| d < 16 && (c == LOWER_HEX[d] || c == UPPER_HEX[d]) && (c' == LOWER_HEX[d] || c' == UPPER_HEX[d]);
    LowerDigit(d);
    UpperDigit(d);
  }

  lemma {:induction false} SameDigits(base: nat, s: string, s': string)
    requires |s| == |s'| && forall i :: 0 <= i < |s| ==> DigitValue(s[i]) == DigitValue(s'[i])
    ensures Value(base, s) == Value(base, s')
  {
    if s != "" { SameDigits(base, s[..|s| - 1], s'[..|s| - 1]); }
  }

  /** The case of hex digits does not matter. */
  lemma CaseDoesNotMatter(s: string, s': string)
    requires |s| == |s'| && forall i :: 0 <= i < |s| ==> SameDigit(s[i], s'[i])
    ensures AllHex(s) && AllHex(s') && Value(16, s) == Value(16, s')
  {
    forall i | 0 <= i < |s| ensures IsHexDigit(s[i]) && IsHexDigit(s'[i]) && DigitValue(s[i]) == DigitValue(s'[i]) {
      SameValue(s[i], s'[i]);
    }
    SameDigits(16, s, s');
  }

  function Power(base: nat, n: nat): nat { if n == 0 then 1 else base * Power(base, n - 1) }

  /** Places count: the digits in front are worth the base once more for every digit behind them. */
  lemma {:induction false} ValueJoined(base: nat, a: string, b: string)
    ensures Value(base, a + b) == Value(base, a) * Power(base, |b|) + Value(base, b)
    decreases |b|
  {
    if b == "" {
      assert a + b == a;
    } else {
      var n := |b| - 1;
      assert (a + b)[..|a + b| - 1] == a + b[..n];
      ValueJoined(base, a, b[..n]);
      Spread(base, Value(base, a), Power(base, n), Value(base, b[..n]), DigitValue(b[n]));
    }
  }

  lemma Spread(base: nat, v: nat, p: nat, w: nat, d: nat)
    ensures base * (v * p + w) + d == v * (base * p) + (base * w + d)
  {
    assert base * (v * p + w) == base * (v * p) + base * w;
    assert base * (v * p) == v * (base * p);
  }

  lemma OneMore(base: nat, front: string, c: char, n: nat)
    requires (base == 10 || base == 16) && Value(base, front) == n / base && DigitValue(c) == n % base
    ensures Value(base, front + [c]) == n && Value(base, [c]) == n % base
  {
    assert (front + [c])[..|front|] == front && [c][..0] == "";
    Quotient(base, n);
  }

  lemma Quotient(base: nat, n: nat)
    requires base == 10 || base == 16
    ensures base * (n / base) + n % base == n
  {
  }

  /** The shortest hex numeral of `n`, with the digits of a table. */
  function Hex(table: string, n: nat): (s: string)
    requires IsTable(table)
    ensures s != [] && AllHex(s) && Value(16, s) == n
  {
    if n < 16 then
      OneMore(16, "", table[n], n);
      [table[n]]
    else
      var front := Hex(table, n / 16);
      OneMore(16, front, table[n % 16], n);
      front + [table[n % 16]]
  }

  function DecimalDigit(d: nat): (c: char)
    requires d < 10
    ensures IsDigit(c) && DigitValue(c) == d
  {
    (48 + d) as char
  }

  /** `std::to_string` of a natural number: no zero in front. */
  function Decimal(n: nat): (s: string)
    ensures s != [] && AllDigits(s) && Value(10, s) == n && (s[0] == '0' ==> n == 0 && |s| == 1)
  {
    if n < 10 then
      OneMore(10, "", DecimalDigit(n), n);
      [DecimalDigit(n)]
    else
      var front := Decimal(n / 10);
      OneMore(10, front, DecimalDigit(n % 10), n);
      front + [DecimalDigit(n % 10)]
  }

  /** A printed number is read back modulo 2^64. */
  lemma HexIsRead(table: string, n: nat)
    requires IsTable(table)
    ensures HexOf(Hex(table, n)) == Some(n % 0x1_0000_0000_0000_0000)
  {
  }

  lemma DecimalIsRead(n: nat)
    ensures DecimalOf(Decimal(n)) == Some(n % 0x1_0000_0000_0000_0000)
  {
  }

  /** A length narrowed to a 32-bit `int`. */
  function IntCast(n: nat): int {
    var low := n % 0x1_0000_0000;
    if low < 0x8000_0000 then low else low - 0x1_0000_0000
  }

  /** It is the number in range that is the same modulo 2^32: the length itself exactly below 2 GiB. */
  lemma IntCastExactly(n: nat)
    ensures -0x8000_0000 <= IntCast(n) < 0x8000_0000 && (n - IntCast(n)) % 0x1_0000_0000 == 0
    ensures IntCast(n) == n <==> n < 0x8000_0000
  {
  }

  /** `std::to_string` of an `int`. */
  function IntText(n: int): (s: string)
    ensures s != "" && (AllDigits(s) <==> n >= 0)
  {
    if n >= 0 then Decimal(n) else assert (['-'] + Decimal(-n))[0] == '-'; ['-'] + Decimal(-n)
  }

  lemma TextOfInt(m: int, n: nat)
    ensures IntText(m) == Decimal(n) <==> m == n
  {
    if m >= 0 {
      assert Value(10, Decimal(m)) == m && Value(10, Decimal(n)) == n;
    } else {
      assert IntText(m)[0] == '-' && IsDigit(Decimal(n)[0]);
    }
  }
}
