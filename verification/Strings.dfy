/** Decimal numerals and separators: the two ingredients of every composed string key. */
module Strings {

  predicate IsDigit(c: char) {
    '0' <= c <= '9'
  }

  function Digit(d: nat): (c: char)
    requires d < 10
    ensures IsDigit(c) && c as int == '0' as int + d
  {
    ('0' as int + d) as char
  }

  /** `String(n)` of a non-negative integer. */
  function Decimal(n: nat): (s: string)
    ensures |s| > 0 && forall c | c in s :: IsDigit(c)
  {
    if n < 10 then [Digit(n)] else Decimal(n / 10) + [Digit(n % 10)]
  }

  lemma {:induction false} DecimalInjective(m: nat, n: nat)
    requires Decimal(m) == Decimal(n)
    ensures m == n
  {
    var s, t := Decimal(m), Decimal(n);
    assert s[|s| - 1] == Digit(m % 10) && t[|t| - 1] == Digit(n % 10);
    if m >= 10 && n >= 10 {
      assert s[..|s| - 1] == Decimal(m / 10) && t[..|t| - 1] == Decimal(n / 10);
      DecimalInjective(m / 10, n / 10);
    }
  }

  /** Numerals of at most `k` digits stand for the numbers below ten to the `k`. */
  lemma {:induction false} DecimalLength(n: nat)
    ensures n < 100000 ==> |Decimal(n)| <= 5
  {
    if n < 100000 {
      assert |Decimal(n / 10000)| == 1;
      assert n / 10 / 10 / 10 / 10 == n / 10000;
      assert |Decimal(n / 10 / 10 / 10)| <= 2;
      assert |Decimal(n / 10 / 10)| <= 3;
      assert |Decimal(n / 10)| <= 4;
    }
  }

  /** A separator that occurs in neither left part splits a string in one way only. */
  lemma {:induction false} UniqueSplit(a: string, b: string, sep: char, x: string, y: string)
    requires a + [sep] + x == b + [sep] + y
    requires sep !in a && sep !in b
    ensures a == b && x == y
  {
    var whole := a + [sep] + x;
    assert whole[|a|] == sep && whole[|b|] == sep;
    assert forall i | 0 <= i < |a| :: whole[i] == a[i] && a[i] != sep;
    assert forall i | 0 <= i < |b| :: whole[i] == b[i] && b[i] != sep;
    assert a == whole[..|a|] && b == whole[..|b|];
    assert x == whole[|a| + 1..] && y == whole[|b| + 1..];
  }

  /** What `\s` matches and `trim` removes. */
  predicate IsSpace(c: char) {
    '\t' <= c <= '\r' || c == ' ' || c == '\U{00A0}' || c == '\U{1680}' || '\U{2000}' <= c <= '\U{200A}' ||
    c == '\U{2028}' || c == '\U{2029}' || c == '\U{202F}' || c == '\U{205F}' || c == '\U{3000}' || c == '\U{FEFF}'
  }

  lemma Assoc(a: string, b: string, c: string)
    ensures (a + b) + c == a + (b + c)
  {
  }
}
