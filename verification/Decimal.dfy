/** Unsigned decimal numerals as `format!("{}", n)` prints them and `parse::<u64>` reads them. */
module Decimal {
  import opened Strings

  predicate IsDigit(c: char) { '0' <= c <= '9' }

  function Digit(d: nat): (c: char)
    requires d < 10
    ensures IsDigit(c)
  { '0' + d as char }

  function DigitValue(c: char): (d: nat)
    requires IsDigit(c)
    ensures d < 10
  { (c - '0') as nat }

  predicate AllDigits(s: string) { forall i :: 0 <= i < |s| ==> IsDigit(s[i]) }

  /** The decimal numeral of `n`, without leading zeros. */
  function Dec(n: nat): (s: string)
    ensures s != [] && AllDigits(s)
    ensures |s| > 1 ==> s[0] != '0'
  {
    if n < 10 then [Digit(n)] else Dec(n / 10) + [Digit(n % 10)]
  }

  function Value(s: string): nat
    requires AllDigits(s)
  {
    if s == [] then 0 else 10 * Value(s[..|s| - 1]) + DigitValue(s[|s| - 1])
  }

  lemma {:induction false} ValueOfDec(n: nat)
    ensures Value(Dec(n)) == n
  {
    if n >= 10 {
      ValueOfDec(n / 10);
      assert Dec(n)[..|Dec(n)| - 1] == Dec(n / 10);
    } else {
      assert Dec(n)[..0] == [];
    }
  }

  lemma DecInjective(m: nat, n: nat)
    requires Dec(m) == Dec(n)
    ensures m == n
  {
    ValueOfDec(m);
    ValueOfDec(n);
  }

  lemma DecFree(n: nat, c: char)
    requires !IsDigit(c)
    ensures Free(Dec(n), c)
  {}

  /** Numerals with the same number of digits are in byte order exactly when their
      values are in numeric order. */
  lemma {:induction false} SameLengthOrder(a: string, b: string)
    requires AllDigits(a) && AllDigits(b) && |a| == |b|
    ensures LexLess(a, b) <==> Value(a) < Value(b)
    ensures a == b <==> Value(a) == Value(b)
  {
    if a != [] {
      var a', x, b', y := a[..|a| - 1], a[|a| - 1], b[..|b| - 1], b[|b| - 1];
      assert a == a' + [x] && b == b' + [y];
      SameLengthOrder(a', b');
      LexLastChar(a', x, b', y);
    }
  }

  lemma DecInjectiveIff(a: nat, b: nat)
    ensures Dec(a) == Dec(b) <==> a == b
  {
    if Dec(a) == Dec(b) { DecInjective(a, b); }
  }

  /** A larger number has more digits, or as many and comes later as text. */
  lemma LongerOrLexLess(a: nat, b: nat)
    requires a <= b
    ensures |Dec(a)| <= |Dec(b)|
    ensures |Dec(a)| == |Dec(b)| && a < b ==> LexLess(Dec(a), Dec(b)) && !LexLess(Dec(b), Dec(a))
  {
    DigitsMonotone(a, b);
    if |Dec(a)| == |Dec(b)| && a < b {
      ValueOfDec(a);
      ValueOfDec(b);
      SameLengthOrder(Dec(a), Dec(b));
      SameLengthOrder(Dec(b), Dec(a));
    }
  }

  lemma {:induction false} DigitsMonotone(a: nat, b: nat)
    requires a <= b
    ensures |Dec(a)| <= |Dec(b)|
  {
    if a >= 10 { DigitsMonotone(a / 10, b / 10); }
  }

  // ---------------------------------------------------------------- numerals that end in 9999

  function Zeros(k: nat): (s: string)
    ensures |s| == k && forall i :: 0 <= i < k ==> s[i] == '0'
  {
    seq(k, _ => '0')
  }

  /** When the next numeral is longer, it is 1 and zeros. */
  lemma {:induction false} LongerIsPower(n: nat)
    requires |Dec(n + 1)| > |Dec(n)|
    ensures Dec(n + 1) == "1" + Zeros(|Dec(n)|)
  {
    if n < 10 {
      assert n == 9;
      assert Dec(1) == "1" && Dec(10) == "10";
    } else {
      assert n % 10 == 9 && (n + 1) / 10 == n / 10 + 1;
      LongerIsPower(n / 10);
    }
  }

  /** The part of a numeral that ends in 9999 before that end. */
  function FrontOf(m: nat): string { if m == 0 then "" else Dec(m) }

  lemma NinesAtEnd(m: nat)
    ensures Dec(10000 * m + 9999) == FrontOf(m) + "9999"
  {
    hide Dec;
    LastNine(1000 * m + 999);
    LastNine(100 * m + 99);
    LastNine(10 * m + 9);
    if m == 0 { OneNine(); } else { LastNine(m); }
    var f := FrontOf(m);
    assert f + "9" + "9" + "9" + "9" == f + "9999";
  }

  lemma LastNine(n: nat)
    requires n > 0
    ensures Dec(10 * n + 9) == Dec(n) + "9"
  {}

  lemma OneNine()
    ensures Dec(9) == "9"
  {}

  /** Zeros before 9999 come first, and the more of them the earlier. */
  lemma {:induction false} MoreZerosFirst(k: nat, q: string)
    requires |q| < k && AllDigits(q)
    ensures LexLess(Zeros(k) + "9999", q + "9999")
  {
    hide LexLess;
    var a, b := Zeros(k) + "9999", q + "9999";
    if q != [] && q[0] == '0' {
      MoreZerosFirst(k - 1, q[1..]);
      assert a[1..] == Zeros(k - 1) + "9999" && b[1..] == q[1..] + "9999";
    }
    LexByFirst(a, b);
  }

  /** Among numbers that end in 9999, one that comes as text before the number 10000 below it comes also
      before every smaller one. */
  lemma NinesOrder(f: nat, a: nat)
    requires f <= a && f % 10000 == 9999 && a % 10000 == 9999 && LexLeq(Dec(a + 10000), Dec(a))
    ensures LexLess(Dec(a + 10000), Dec(f))
  {
    hide LexLess, Dec;
    var m, g := a / 10000, f / 10000;
    NinesAtEnd(m);
    NinesAtEnd(m + 1);
    NinesAtEnd(g);
    LongerOrLexLess(a, a + 10000);
    DecInjectiveIff(a + 10000, a);
    var k := |FrontOf(m)|;
    assert Dec(m + 1) == "1" + Zeros(k) by { if m == 0 { OneDigit(); } else { LongerIsPower(m); } }
    DigitsMonotone(g, m);
    FrontLess(k, FrontOf(g));
  }

  lemma OneDigit()
    ensures Dec(1) == "1" + Zeros(0)
  {}

  lemma FrontLess(k: nat, p: string)
    requires |p| <= k && AllDigits(p) && (p != "" ==> p[0] != '0')
    ensures LexLess("1" + Zeros(k) + "9999", p + "9999")
  {
    hide LexLess;
    var a, b := "1" + Zeros(k) + "9999", p + "9999";
    if p != "" && p[0] == '1' {
      MoreZerosFirst(k, p[1..]);
      assert a[1..] == Zeros(k) + "9999" && b[1..] == p[1..] + "9999";
    }
    LexByFirst(a, b);
  }

  const U64_LIMIT: nat := 0x1_0000_0000_0000_0000

  datatype Parsed = Number(n: nat) | Malformed

  /** `str::parse::<u64>`: an optional leading '+', then one or more digits, below 2^64. */
  function ParseU64(s: string): (r: Parsed)
    ensures r.Number? ==> r.n < U64_LIMIT
  {
    var digits := if s != [] && s[0] == '+' then s[1..] else s;
    if digits == [] || !AllDigits(digits) || Value(digits) >= U64_LIMIT then Malformed
    else Number(Value(digits))
  }

  /** Exactly which texts are read as which number. */
  lemma ParseIff(s: string, n: nat)
    ensures ParseU64(s) == Number(n) <==>
      exists d :: (s == d || s == "+" + d) && d != "" && AllDigits(d) && Value(d) == n && n < 0x1_0000_0000_0000_0000
  {
    if ParseU64(s) == Number(n) {
      var d := if s[0] == '+' then s[1..] else s;
      assert s == d || s == "+" + d;
    }
    if d :| (s == d || s == "+" + d) && d != "" && AllDigits(d) && Value(d) == n && n < 0x1_0000_0000_0000_0000 {
      if s == d { assert s[0] != '+'; } else { assert s[1..] == d; }
    }
  }

  lemma ParseDec(n: nat)
    requires n < U64_LIMIT
    ensures ParseU64(Dec(n)) == Number(n)
  {
    ValueOfDec(n);
    assert Dec(n)[0] != '+';
  }
}
