/** Text as the platform turns it into bytes: UTF-8 (section 3 of RFC 3629) and decimal integers. */
module Text {
  import opened Bytes

  function Continuation(n: nat): byte {
    (0x80 + n % 64) as byte
  }

  function Utf8Char(c: char): Bytes {
    var n := c as nat;
    if n < 0x80 then [n as byte]
    else if n < 0x800 then [(0xC0 + n / 64) as byte, Continuation(n)]
    else if n < 0x10000 then [(0xE0 + n / 64 / 64) as byte, Continuation(n / 64), Continuation(n)]
    else [(0xF0 + n / 64 / 64 / 64) as byte, Continuation(n / 64 / 64), Continuation(n / 64), Continuation(n)]
  }

  function Utf8(s: string): Bytes {
    if s == "" then [] else Utf8Char(s[0]) + Utf8(s[1..])
  }

  /** A JavaScript string's `length`: characters beyond the basic plane take two UTF-16 units. */
  function Utf16Length(s: string): nat {
    if s == "" then 0 else (if s[0] as nat >= 0x10000 then 2 else 1) + Utf16Length(s[1..])
  }

  lemma {:induction false} Utf16LengthBounds(s: string)
    ensures |s| <= Utf16Length(s) <= 2 * |s|
  {
    if s != "" {
      Utf16LengthBounds(s[1..]);
    }
  }

  lemma {:induction false} Utf16LengthOfBasic(s: string)
    requires forall i :: 0 <= i < |s| ==> s[i] as nat < 0x10000
    ensures Utf16Length(s) == |s|
  {
    if s != "" {
      Utf16LengthOfBasic(s[1..]);
    }
  }

  lemma ContinuationCompletes(m: nat, n: nat)
    requires m / 64 == n / 64 && Continuation(m) == Continuation(n)
    ensures m == n
  {
    assert m % 64 == n % 64;
  }

  lemma Utf8CharIsInjective(c: char, d: char)
    requires Utf8Char(c) == Utf8Char(d)
    ensures c == d
  {
    var m, n := c as nat, d as nat;
    var u, v := Utf8Char(c), Utf8Char(d);
    assert u[0] == v[0];
    if |u| > 1 {
      assert u[1] == v[1];
      if |u| > 2 {
        assert u[2] == v[2];
        if |u| > 3 {
          assert u[3] == v[3];
          ContinuationCompletes(m / 64 / 64, n / 64 / 64);
        }
        ContinuationCompletes(m / 64, n / 64);
      }
      ContinuationCompletes(m, n);
    }
  }

  /** The first byte settles how many bytes follow. */
  lemma Utf8CharIsPrefixFree(c: char, d: char, x: Bytes, y: Bytes)
    requires Utf8Char(c) + x == Utf8Char(d) + y
    ensures c == d && x == y
  {
    var u, v := Utf8Char(c), Utf8Char(d);
    assert u[0] == (u + x)[0] == (v + y)[0] == v[0];
    assert |u| == |v|;
    assert u == (u + x)[..|u|] == (v + y)[..|v|] == v;
    assert x == (u + x)[|u|..] == (v + y)[|v|..] == y;
    Utf8CharIsInjective(c, d);
  }

  /** Different texts have different UTF-8 bytes. */
  lemma {:induction false} Utf8IsInjective(s: string, t: string)
    requires Utf8(s) == Utf8(t)
    ensures s == t
  {
    if s != "" && t != "" {
      Utf8CharIsPrefixFree(s[0], t[0], Utf8(s[1..]), Utf8(t[1..]));
      Utf8IsInjective(s[1..], t[1..]);
    }
  }

  // ----- Decimal integers, as template strings print them -----

  const DIGITS := "0123456789"

  predicate IsDigit(c: char) {
    '0' <= c <= '9'
  }

  function Decimal(n: nat): (s: string)
    ensures |s| > 0 && forall i :: 0 <= i < |s| ==> IsDigit(s[i])
  {
    if n < 10 then [DIGITS[n]] else Decimal(n / 10) + [DIGITS[n % 10]]
  }

  lemma {:induction false} DecimalIsInjective(m: nat, n: nat)
    requires Decimal(m) == Decimal(n)
    ensures m == n
  {
    var s, t := Decimal(m), Decimal(n);
    assert DIGITS[m % 10] == s[|s| - 1] == t[|t| - 1] == DIGITS[n % 10];
    if m >= 10 && n >= 10 {
      assert Decimal(m / 10) == s[..|s| - 1] == t[..|t| - 1] == Decimal(n / 10);
      DecimalIsInjective(m / 10, n / 10);
    }
  }

  /** Two texts that agree after a common separator that neither head contains agree in head and tail. */
  lemma SplitAtSeparator(a: string, b: string, sep: char, x: string, y: string)
    requires sep !in a && sep !in b
    requires a + [sep] + x == b + [sep] + y
    ensures a == b && x == y
  {
    var s := a + [sep] + x;
    var k := if |a| <= |b| then |a| else |b|;
    assert s[k] == (b + [sep] + y)[k];
    assert |a| == |b|;
    assert a == s[..|a|] == (b + [sep] + y)[..|b|] == b;
    assert x == s[|a| + 1..] == (b + [sep] + y)[|b| + 1..] == y;
  }
}
