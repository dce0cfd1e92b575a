/** Decimal numerals as Python writes them. */
module Numerals {
  predicate IsDigit(c: char) { '0' <= c <= '9' }

  function Digits(n: nat): (r: string)
    ensures r != ""
  {
    if n < 10 then ['0' + n as char] else Digits(n / 10) + ['0' + (n % 10) as char]
  }

  /** Reads digits onto n as far as they go. */
  function Scan(n: nat, s: string): (r: (nat, string))
    ensures |r.1| <= |s|
    decreases |s|
  {
    if s != "" && IsDigit(s[0]) then Scan(10 * n + (s[0] as nat - '0' as nat), s[1..]) else (n, s)
  }

  lemma {:induction false} FirstDigit(n: nat)
    ensures IsDigit(Digits(n)[0])
    ensures Digits(n)[0] == '0' <==> n == 0
  {
    if n >= 10 {
      FirstDigit(n / 10);
      assert Digits(n)[0] == Digits(n / 10)[0];
    }
  }

  lemma {:induction false} ScanDigit(m: nat, d: nat, t: string)
    requires d < 10
    ensures Scan(m, ['0' + d as char] + t) == Scan(10 * m + d, t)
  {
    var s := ['0' + d as char] + t;
    assert s[1..] == t && s[0] as nat - '0' as nat == d;
  }

  /** Reading a numeral gives its number. */
  lemma {:induction false} ScanDigits(n: nat, t: string)
    ensures Scan(0, Digits(n) + t) == Scan(n, t)
  {
    if n < 10 {
      ScanDigit(0, n, t);
    } else {
      var d := ['0' + (n % 10) as char];
      assert Digits(n) + t == Digits(n / 10) + (d + t);
      ScanDigits(n / 10, d + t);
      ScanDigit(n / 10, n % 10, t);
    }
  }

  lemma {:induction false} DigitsInjective(m: nat, n: nat)
    requires Digits(m) == Digits(n)
    ensures m == n
  {
    ScanDigits(m, "");
    ScanDigits(n, "");
  }
}
