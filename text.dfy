/**
 * String helpers that stand for the PHP built-ins the core relies on:
 * `strtoupper`, `sprintf('%08x', n)`, integer-to-string conversion,
 * `explode` and `implode`.
 */
module Text {

  predicate IsLower(c: char) {
    'a' <= c <= 'z'
  }

  predicate IsHexDigit(c: char) {
    '0' <= c <= '9' || 'a' <= c <= 'f'
  }

  predicate IsDecimalDigit(c: char) {
    '0' <= c <= '9'
  }

  predicate AllHex(s: string) {
    forall i :: 0 <= i < |s| ==> IsHexDigit(s[i])
  }

  predicate AllDecimal(s: string) {
    forall i :: 0 <= i < |s| ==> IsDecimalDigit(s[i])
  }

  // ---------------------------------------------------------------------
  // strtoupper (ASCII letters only)
  // ---------------------------------------------------------------------

  function UpperChar(c: char): (u: char)
    ensures !IsLower(u)
    ensures IsLower(c) ==> 'A' <= u <= 'Z' && u as int == c as int - 32
    ensures !IsLower(c) ==> u == c
  {
    if IsLower(c) then (c as int - 32) as char else c
  }

  function ToUpper(s: string): (u: string)
    ensures |u| == |s|
    ensures forall i :: 0 <= i < |s| ==> u[i] == UpperChar(s[i])
  {
    if s == [] then [] else [UpperChar(s[0])] + ToUpper(s[1..])
  }

  /** Upper-casing twice is upper-casing once: an already upper-case method is hashed as it is. */
  lemma {:induction false} ToUpperIdempotent(s: string)
    ensures ToUpper(ToUpper(s)) == ToUpper(s)
  {
    var u := ToUpper(s);
    assert forall i :: 0 <= i < |u| ==> ToUpper(u)[i] == u[i];
  }

  // ---------------------------------------------------------------------
  // Digits in base 10 or 16, lowercase (PHP's "%x" and decimal conversion)
  // ---------------------------------------------------------------------

  function DigitValue(c: char): (d: nat)
    requires IsHexDigit(c)
    ensures d < 16
  {
    if c <= '9' then c as int - '0' as int else c as int - 'a' as int + 10
  }

  function DigitChar(d: nat): (c: char)
    requires d < 16
    ensures IsHexDigit(c) && DigitValue(c) == d
    ensures d < 10 <==> IsDecimalDigit(c)
  {
    if d < 10 then ('0' as int + d) as char else ('a' as int + d - 10) as char
  }

  function Pow(base: nat, k: nat): (p: nat)
    ensures p >= 1 || base == 0
  {
    if k == 0 then 1 else base * Pow(base, k - 1)
  }

  /** The shortest digit string of `n` ("0" for zero). */
  function Digits(n: nat, base: nat): (s: string)
    requires 2 <= base <= 16
    ensures |s| >= 1 && AllHex(s)
    ensures forall i :: 0 <= i < |s| ==> DigitValue(s[i]) < base
    ensures |s| > 1 ==> n >= base
    ensures n > 0 ==> s[0] != '0'
    decreases n
  {
    if n < base then
      assert DigitValue('0') == 0;
      [DigitChar(n)]
    else
      DivLess(n, base);
      var init, last := Digits(n / base, base), DigitChar(n % base);
      assert DigitValue(last) < base;
      init + [last]
  }

  /** The number a digit string denotes, most significant digit first. */
  function Value(s: string, base: nat): nat
    requires AllHex(s)
  {
    if s == [] then 0 else Value(s[..|s| - 1], base) * base + DigitValue(s[|s| - 1])
  }

  lemma {:induction false} ValueOfDigits(n: nat, base: nat)
    requires 2 <= base <= 16
    ensures Value(Digits(n, base), base) == n
    decreases n
  {
    if n >= base {
      var q, r := n / base, n % base;
      var d := Digits(q, base);
      var c := DigitChar(r);
      DivLess(n, base);
      ValueOfDigits(q, base);
      ValueSnoc(d, c, base);
      assert Digits(n, base) == d + [c];
      assert DigitValue(c) == r;
      DivMod(n, base);
    }
  }

  lemma ValueSnoc(s: string, c: char, base: nat)
    requires AllHex(s) && IsHexDigit(c)
    ensures AllHex(s + [c]) && Value(s + [c], base) == Value(s, base) * base + DigitValue(c)
  {
    assert (s + [c])[..|s|] == s;
  }

  lemma DivLess(n: nat, base: nat)
    requires base >= 2 && n >= 1
    ensures n / base < n
  {
    var q := n / base;
    DivMod(n, base);
    MulMonotone(q, 2, base);
  }

  lemma DivMod(n: nat, base: nat)
    requires base >= 1
    ensures n == (n / base) * base + n % base
  {
  }

  lemma DivBelow(n: nat, base: nat, p: nat)
    requires base >= 1 && n < base * p
    ensures n / base < p
  {
    var q := n / base;
    if q >= p {
      MulMonotone(base, p, q);
      DivMod(n, base);
      assert false;
    }
  }

  lemma {:induction false} MulMonotone(a: nat, b: nat, c: nat)
    requires b <= c
    ensures a * b <= a * c
  {
    if a > 0 { MulMonotone(a - 1, b, c); }
  }

  lemma {:induction false} DigitsShort(n: nat, base: nat, k: nat)
    requires 2 <= base <= 16 && k >= 1
    ensures n < Pow(base, k) ==> |Digits(n, base)| <= k
    decreases k
  {
    if n >= base && n < Pow(base, k) {
      assert Pow(base, k) == base * Pow(base, k - 1);
      DivBelow(n, base, Pow(base, k - 1));
      if k > 1 {
        DigitsShort(n / base, base, k - 1);
      } else {
        DivMod(n, base);
        assert false;
      }
    }
  }

  function Zeros(k: nat): (z: string)
    ensures |z| == k && forall i :: 0 <= i < k ==> z[i] == '0'
  {
    if k == 0 then "" else "0" + Zeros(k - 1)
  }

  lemma {:induction false} ValueLeadingZeros(k: nat, s: string, base: nat)
    requires AllHex(s)
    ensures AllHex(Zeros(k) + s) && Value(Zeros(k) + s, base) == Value(s, base)
  {
    var t := Zeros(k) + s;
    assert AllHex(t) by {
      forall i | 0 <= i < |t| ensures IsHexDigit(t[i]) {
        if i >= k { assert t[i] == s[i - k]; }
      }
    }
    if s == [] {
      assert t == Zeros(k);
      if k > 0 {
        assert t[..|t| - 1] == Zeros(k - 1) + s;
        ValueLeadingZeros(k - 1, s, base);
      }
    } else {
      assert t[..|t| - 1] == Zeros(k) + s[..|s| - 1];
      ValueLeadingZeros(k, s[..|s| - 1], base);
    }
  }

  /**
   * `sprintf('%08x', n)`: lowercase hexadecimal, left-padded with zeros to
   * at least eight digits.  It denotes `n`, and it is exactly eight digits
   * long for every `n` below 2^32.
   */
  function Hex8(n: nat): (s: string)
    ensures |s| >= 8 && AllHex(s)
    ensures Value(s, 16) == n
    ensures n < Pow(16, 8) ==> |s| == 8
    ensures |s| > 8 ==> s[0] != '0'
  {
    var h := Digits(n, 16);
    ValueOfDigits(n, 16);
    DigitsShort(n, 16, 8);
    if |h| < 8 then ValueLeadingZeros(8 - |h|, h, 16); Zeros(8 - |h|) + h else h
  }

  /** PHP's conversion of a non-negative integer to its decimal string. */
  function Decimal(n: nat): (s: string)
    ensures |s| >= 1 && AllDecimal(s) && AllHex(s)
    ensures Value(s, 10) == n
    ensures |s| > 1 ==> s[0] != '0'
  {
    var d := Digits(n, 10);
    ValueOfDigits(n, 10);
    assert forall i :: 0 <= i < |d| ==> IsDecimalDigit(d[i]) by {
      forall i | 0 <= i < |d| ensures IsDecimalDigit(d[i]) {
        assert DigitChar(DigitValue(d[i])) == d[i];
      }
    }
    d
  }

  // ---------------------------------------------------------------------
  // implode / explode
  // ---------------------------------------------------------------------

  /** `implode(sep, parts)`. */
  function Join(sep: string, parts: seq<string>): string {
    if parts == [] then ""
    else if |parts| == 1 then parts[0]
    else parts[0] + sep + Join(sep, parts[1..])
  }

  lemma Join2(sep: string, a: string, b: string)
    ensures Join(sep, [a, b]) == a + sep + b
  {
    assert [a, b][1..] == [b];
  }

  lemma Join3(sep: string, a: string, b: string, c: string)
    ensures Join(sep, [a, b, c]) == a + sep + b + sep + c
  {
    assert [a, b, c][1..] == [b, c];
    Join2(sep, b, c);
  }

  lemma Join4(sep: string, a: string, b: string, c: string, d: string)
    ensures Join(sep, [a, b, c, d]) == a + sep + b + sep + c + sep + d
  {
    assert [a, b, c, d][1..] == [b, c, d];
    Join3(sep, b, c, d);
  }

  lemma Join5(sep: string, a: string, b: string, c: string, d: string, e: string)
    ensures Join(sep, [a, b, c, d, e]) == a + sep + b + sep + c + sep + d + sep + e
  {
    assert [a, b, c, d, e][1..] == [b, c, d, e];
    Join4(sep, b, c, d, e);
  }

  /** The first part, then the separator, then the rest joined. */
  lemma JoinCons(sep: string, a: string, rest: seq<string>)
    requires rest != []
    ensures Join(sep, [a] + rest) == a + sep + Join(sep, rest)
  {
    assert ([a] + rest)[1..] == rest;
  }

  /** Length of the leading run of characters different from `sep`. */
  function RunWithout(s: string, sep: char): (n: nat)
    ensures n <= |s|
    ensures forall i :: 0 <= i < n ==> s[i] != sep
    ensures n < |s| ==> s[n] == sep
  {
    if s != [] && s[0] != sep then 1 + RunWithout(s[1..], sep) else 0
  }

  /** The leading run of decimal digits. */
  function LeadingDigits(s: string): (d: string)
    ensures |d| <= |s|
    ensures AllDecimal(d) && AllHex(d)
    ensures |d| < |s| ==> !IsDecimalDigit(s[|d|])
  {
    if s != [] && IsDecimalDigit(s[0]) then [s[0]] + LeadingDigits(s[1..]) else []
  }

  /** Digits followed by a non-digit or the end: the leading run is exactly those digits. */
  lemma {:induction false} LeadingDigitsIs(digits: string, rest: string)
    requires AllDecimal(digits)
    requires rest == [] || !IsDecimalDigit(rest[0])
    ensures LeadingDigits(digits + rest) == digits
  {
    if digits == [] {
      assert digits + rest == rest;
    } else {
      assert (digits + rest)[1..] == digits[1..] + rest;
      LeadingDigitsIs(digits[1..], rest);
    }
  }

  /** `explode(sep, s)` for a one-character separator. */
  function Split(s: string, sep: char): (parts: seq<string>)
    ensures |parts| >= 1
    ensures forall i :: 0 <= i < |parts| ==> sep !in parts[i]
    decreases |s|
  {
    var n := RunWithout(s, sep);
    assert sep !in s[..n] by {
      forall i | 0 <= i < n ensures s[..n][i] != sep { }
    }
    if n == |s| then [s] else [s[..n]] + Split(s[n + 1..], sep)
  }

  /** Splitting and re-joining gives back the original string. */
  lemma {:induction false} JoinSplit(s: string, sep: char)
    ensures Join([sep], Split(s, sep)) == s
    decreases |s|
  {
    var n := RunWithout(s, sep);
    if n < |s| {
      var rest := Split(s[n + 1..], sep);
      JoinSplit(s[n + 1..], sep);
      assert Split(s, sep) == [s[..n]] + rest;
      assert ([s[..n]] + rest)[1..] == rest;
      assert s == s[..n] + [sep] + s[n + 1..];
    }
  }

  /** Joining separator-free parts and splitting again gives back the parts. */
  lemma {:induction false} SplitJoin(parts: seq<string>, sep: char)
    requires |parts| >= 1
    requires forall i :: 0 <= i < |parts| ==> sep !in parts[i]
    ensures Split(Join([sep], parts), sep) == parts
  {
    var s := Join([sep], parts);
    var p := parts[0];
    if |parts| == 1 {
      RunWithoutFree(p, [], sep);
      assert p + [] == p;
    } else {
      var tail := Join([sep], parts[1..]);
      assert s == p + ([sep] + tail);
      SplitCons(p, tail, sep);
      SplitJoin(parts[1..], sep);
      assert parts == [p] + parts[1..];
    }
  }

  lemma SplitCons(p: string, tail: string, sep: char)
    requires sep !in p
    ensures Split(p + ([sep] + tail), sep) == [p] + Split(tail, sep)
  {
    var s := p + ([sep] + tail);
    RunWithoutFree(p, [sep] + tail, sep);
    assert s[|p| + 1..] == tail;
    assert s[..|p|] == p;
  }

  lemma RunWithoutFree(p: string, tail: string, sep: char)
    requires sep !in p
    requires tail == [] || tail[0] == sep
    ensures RunWithout(p + tail, sep) == |p|
  {
    var s := p + tail;
    var n := RunWithout(s, sep);
    assert forall i :: 0 <= i < |p| ==> s[i] == p[i];
    assert |p| < |s| ==> s[|p|] == sep;
  }
}
