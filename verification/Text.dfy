/** Strings and numbers as the standard library of Go treats them. */
module Text {
  import opened Base

  predicate Lacks(s: string, c: char) { forall i :: 0 <= i < |s| ==> s[i] != c }

  predicate AllDigits(s: string) { forall i :: 0 <= i < |s| ==> '0' <= s[i] <= '9' }

  // ----- numbers -----

  function Digit(n: nat): char requires n < 16 { "0123456789abcdef"[n] }

  function Decimal(n: nat): string {
    if n < 10 then [Digit(n)] else Decimal(n / 10) + [Digit(n % 10)]
  }

  /** n in hexadecimal, padded to k digits. */
  function Hex(n: nat, k: nat): string {
    if k == 0 then "" else Hex(n / 16, k - 1) + [Digit(n % 16)]
  }

  lemma {:induction false} DecimalShape(n: nat)
    ensures Decimal(n) != "" && AllDigits(Decimal(n))
  {
    if n >= 10 { DecimalShape(n / 10); }
  }

  lemma DigitIsInjective(m: nat, n: nat)
    requires m < 16 && n < 16 && Digit(m) == Digit(n)
    ensures m == n
  {}

  lemma LastIsInjective(a: string, c: char, b: string, d: char)
    requires a + [c] == b + [d]
    ensures a == b && c == d
  {
    assert (a + [c])[..|a|] == a && (b + [d])[..|b|] == b && |a| == |b|;
    assert (a + [c])[|a|] == c && (b + [d])[|b|] == d;
  }

  lemma {:induction false} DecimalIsInjective(m: nat, n: nat)
    requires Decimal(m) == Decimal(n)
    ensures m == n
  {
    if m < 10 && n < 10 {
      DigitIsInjective(m, n);
    } else if m >= 10 && n >= 10 {
      LastIsInjective(Decimal(m / 10), Digit(m % 10), Decimal(n / 10), Digit(n % 10));
      DigitIsInjective(m % 10, n % 10);
      DecimalIsInjective(m / 10, n / 10);
    } else {
      DecimalShape(m / 10);
      DecimalShape(n / 10);
    }
  }

  function Power16(k: nat): nat { if k == 0 then 1 else 16 * Power16(k - 1) }

  lemma {:induction false} HexShape(n: nat, k: nat)
    ensures |Hex(n, k)| == k && Lacks(Hex(n, k), '/')
  {
    if k > 0 { HexShape(n / 16, k - 1); }
  }

  lemma {:induction false} HexIsInjective(m: nat, n: nat, k: nat)
    requires m < Power16(k) && n < Power16(k) && Hex(m, k) == Hex(n, k)
    ensures m == n
  {
    if k > 0 {
      LastIsInjective(Hex(m / 16, k - 1), Digit(m % 16), Hex(n / 16, k - 1), Digit(n % 16));
      DigitIsInjective(m % 16, n % 16);
      HexIsInjective(m / 16, n / 16, k - 1);
    }
  }

  // ----- trimming and splitting -----

  function TrimLeft(s: string): string { if s != "" && IsSpace(s[0]) then TrimLeft(s[1..]) else s }

  function TrimRight(s: string): string { if s != "" && IsSpace(s[|s| - 1]) then TrimRight(s[..|s| - 1]) else s }

  function Trim(s: string): string { TrimRight(TrimLeft(s)) }

  lemma {:induction false} TrimLeftShortens(s: string)
    ensures |TrimLeft(s)| <= |s|
  {
    if s != "" && IsSpace(s[0]) { TrimLeftShortens(s[1..]); }
  }

  lemma {:induction false} TrimRightShortens(s: string)
    ensures |TrimRight(s)| <= |s|
  {
    if s != "" && IsSpace(s[|s| - 1]) { TrimRightShortens(s[..|s| - 1]); }
  }

  lemma TrimShortens(s: string)
    ensures |Trim(s)| <= |s|
  {
    TrimLeftShortens(s);
    TrimRightShortens(TrimLeft(s));
  }

  /** The parts between the separators: one more than there are separators. */
  function Split(s: string, c: char): (parts: seq<string>)
    ensures parts != []
  {
    if s == "" then [""]
    else
      var rest := Split(s[1..], c);
      if s[0] == c then [""] + rest else [[s[0]] + rest[0]] + rest[1..]
  }

  function Join(parts: seq<string>, c: char): string
    requires parts != []
  {
    if |parts| == 1 then parts[0] else parts[0] + [c] + Join(parts[1..], c)
  }

  lemma {:induction false} SplitWhole(s: string, c: char)
    requires Lacks(s, c)
    ensures Split(s, c) == [s]
  {
    if s != "" {
      SplitWhole(s[1..], c);
      assert [s[0]] + s[1..] == s;
    }
  }

  lemma {:induction false} SplitFirst(p: string, c: char, t: string)
    requires Lacks(p, c)
    ensures Split(p + [c] + t, c) == [p] + Split(t, c)
  {
    var s := p + [c] + t;
    if p == "" {
      assert s[1..] == t;
    } else {
      SplitFirst(p[1..], c, t);
      assert s[1..] == p[1..] + [c] + t;
      assert [p[0]] + p[1..] == p;
    }
  }

  lemma {:induction false} SplitInvertsJoin(parts: seq<string>, c: char)
    requires parts != [] && forall i :: 0 <= i < |parts| ==> Lacks(parts[i], c)
    ensures Split(Join(parts, c), c) == parts
  {
    if |parts| == 1 {
      SplitWhole(parts[0], c);
    } else {
      SplitInvertsJoin(parts[1..], c);
      SplitFirst(parts[0], c, Join(parts[1..], c));
    }
  }
}
