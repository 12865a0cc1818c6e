/** btoa and atob on byte strings: base64 of section 4 of RFC 4648, decoded as forgivingly as browsers do. */
module Base64 {
  import opened Bytes
  import opened Wrappers

  predicate IsBase64Char(c: char) {
    'A' <= c <= 'Z' || 'a' <= c <= 'z' || '0' <= c <= '9' || c == '+' || c == '/'
  }

  function Sextet(c: char): (v: nat)
    requires IsBase64Char(c)
    ensures v < 64
  {
    if 'A' <= c <= 'Z' then (c - 'A') as nat
    else if 'a' <= c <= 'z' then (c - 'a') as nat + 26
    else if '0' <= c <= '9' then (c - '0') as nat + 52
    else if c == '+' then 62
    else 63
  }

  function Letter(v: nat): (c: char)
    requires v < 64
    ensures IsBase64Char(c) && Sextet(c) == v
  {
    if v < 26 then 'A' + v as char
    else if v < 52 then 'a' + (v - 26) as char
    else if v < 62 then '0' + (v - 52) as char
    else if v == 62 then '+'
    else '/'
  }

  /** The letters for 1, 2 or 3 bytes, without padding. */
  function Letters(bytes: Bytes): (s: string)
    requires 0 < |bytes| <= 3
    ensures |s| == |bytes| + 1 && forall i :: 0 <= i < |s| ==> IsBase64Char(s[i])
  {
    var a := bytes[0] as nat;
    var b := if |bytes| > 1 then bytes[1] as nat else 0;
    var c := if |bytes| > 2 then bytes[2] as nat else 0;
    [Letter(a / 4), Letter(a % 4 * 16 + b / 16)]
    + (if |bytes| > 1 then [Letter(b % 16 * 4 + c / 64)] else [])
    + (if |bytes| > 2 then [Letter(c % 64)] else [])
  }

  function Unpadded(bytes: Bytes): (s: string)
    ensures forall i :: 0 <= i < |s| ==> IsBase64Char(s[i])
  {
    if bytes == [] then ""
    else if |bytes| <= 3 then Letters(bytes)
    else Letters(bytes[..3]) + Unpadded(bytes[3..])
  }

  function Padding(size: nat): string {
    if size % 3 == 1 then "==" else if size % 3 == 2 then "=" else ""
  }

  function ToBase64(bytes: Bytes): string {
    Unpadded(bytes) + Padding(|bytes|)
  }

  function Group(s: string): (bytes: Bytes)
    requires 2 <= |s| <= 4 && forall i :: 0 <= i < |s| ==> IsBase64Char(s[i])
    ensures |bytes| == |s| - 1
  {
    var p, q := Sextet(s[0]), Sextet(s[1]);
    [(p * 4 + q / 16) as byte]
    + (if |s| > 2 then [(q % 16 * 16 + Sextet(s[2]) / 4) as byte] else [])
    + (if |s| > 3 then [(Sextet(s[2]) % 4 * 64 + Sextet(s[3])) as byte] else [])
  }

  function DecodeLetters(s: string): Option<Bytes>
    requires forall i :: 0 <= i < |s| ==> IsBase64Char(s[i])
  {
    if s == "" then Some([])
    else if |s| == 1 then None
    else if |s| <= 4 then Some(Group(s))
    else
      match DecodeLetters(s[4..]) {
        case None => None
        case Some(rest) => Some(Group(s[..4]) + rest)
      }
  }

  /** Padding counts only where the length is a multiple of four. */
  function Stripped(s: string): string {
    if |s| % 4 != 0 || s == "" || s[|s| - 1] != '=' then s
    else if s[|s| - 2] != '=' then s[..|s| - 1]
    else s[..|s| - 2]
  }

  function FromBase64(s: string): Option<Bytes> {
    var letters := Stripped(s);
    if forall i :: 0 <= i < |letters| ==> IsBase64Char(letters[i]) then DecodeLetters(letters) else None
  }

  /** The validator's pattern: letters of the alphabet, then at most two padding signs. */
  predicate IsBase64(s: string) {
    forall i :: 0 <= i < |s| - Pads(s) ==> IsBase64Char(s[i])
  }

  function Pads(s: string): (n: nat)
    ensures n <= |s|
  {
    if s == "" || s[|s| - 1] != '=' then 0
    else if |s| == 1 || s[|s| - 2] != '=' then 1
    else 2
  }

  lemma OneByte(a: nat)
    requires a < 256
    ensures a / 4 * 4 + a % 4 * 16 / 16 == a
  {
  }

  lemma TwoBytes(a: nat, b: nat)
    requires a < 256 && b < 256
    ensures a / 4 * 4 + (a % 4 * 16 + b / 16) / 16 == a
    ensures (a % 4 * 16 + b / 16) % 16 * 16 + b % 16 * 4 / 4 == b
  {
    Digits(a % 4, b / 16, 16);
  }

  lemma ThreeBytes(a: nat, b: nat, c: nat)
    requires a < 256 && b < 256 && c < 256
    ensures a / 4 * 4 + (a % 4 * 16 + b / 16) / 16 == a
    ensures (a % 4 * 16 + b / 16) % 16 * 16 + (b % 16 * 4 + c / 64) / 4 == b
    ensures (b % 16 * 4 + c / 64) % 4 * 64 + c % 64 == c
  {
    Digits(a % 4, b / 16, 16);
    Digits(b % 16, c / 64, 4);
  }

  lemma Digits(high: nat, low: nat, base: nat)
    requires (base == 4 || base == 16) && low < base
    ensures (high * base + low) / base == high && (high * base + low) % base == low
  {
  }

  lemma GroupUndoesLetters(bytes: Bytes)
    requires 0 < |bytes| <= 3
    ensures Group(Letters(bytes)) == bytes
  {
    var a := bytes[0] as nat;
    if |bytes| == 1 {
      OneByte(a);
    } else if |bytes| == 2 {
      TwoBytes(a, bytes[1] as nat);
    } else {
      ThreeBytes(a, bytes[1] as nat, bytes[2] as nat);
    }
  }

  lemma {:induction false} DecodeUndoesLetters(bytes: Bytes)
    ensures DecodeLetters(Unpadded(bytes)) == Some(bytes)
  {
    if 0 < |bytes| <= 3 {
      GroupUndoesLetters(bytes);
    } else if bytes != [] {
      GroupUndoesLetters(bytes[..3]);
      DecodeUndoesLetters(bytes[3..]);
      DecodeFirstGroup(Letters(bytes[..3]), Unpadded(bytes[3..]));
      assert bytes == bytes[..3] + bytes[3..];
    }
  }

  lemma DecodeFirstGroup(first: string, rest: string)
    requires |first| == 4 && rest != ""
    requires forall i :: 0 <= i < |first| ==> IsBase64Char(first[i])
    requires forall i :: 0 <= i < |rest| ==> IsBase64Char(rest[i])
    requires DecodeLetters(rest).Some?
    ensures DecodeLetters(first + rest) == Some(Group(first) + DecodeLetters(rest).value)
  {
    assert (first + rest)[..4] == first && (first + rest)[4..] == rest;
  }

  lemma {:induction false} UnpaddedLength(bytes: Bytes)
    ensures |Unpadded(bytes)| == |bytes| + (|bytes| + 2) / 3
  {
    if |bytes| > 3 {
      UnpaddedLength(bytes[3..]);
    }
  }

  lemma PaddedLength(n: nat, letters: nat, padding: nat)
    requires letters == n + (n + 2) / 3 && padding == |Padding(n)|
    ensures letters + padding == (n + 2) / 3 * 4 && (letters + padding) % 4 == 0
  {
    var q, r := n / 3, n % 3;
    var m := if r == 0 then q else q + 1;
    GroupsOfThree(q, r);
    assert padding == if r == 1 then 2 else if r == 2 then 1 else 0;
    assert letters + padding == 4 * m;
  }

  lemma GroupsOfThree(q: nat, r: nat)
    requires r < 3
    ensures (3 * q + r + 2) / 3 == if r == 0 then q else q + 1
  {
  }

  lemma ToBase64Strips(bytes: Bytes)
    ensures Stripped(ToBase64(bytes)) == Unpadded(bytes)
    ensures IsBase64(ToBase64(bytes)) && |ToBase64(bytes)| == (|bytes| + 2) / 3 * 4
  {
    UnpaddedLength(bytes);
    PaddedStrips(Unpadded(bytes), |bytes|);
  }

  lemma PaddedStrips(letters: string, n: nat)
    requires forall i :: 0 <= i < |letters| ==> IsBase64Char(letters[i])
    requires |letters| == n + (n + 2) / 3
    ensures Stripped(letters + Padding(n)) == letters
    ensures IsBase64(letters + Padding(n)) && |letters + Padding(n)| == (n + 2) / 3 * 4
  {
    PaddedLength(n, |letters|, |Padding(n)|);
    PaddingIsShort(n);
    PaddingStrips(letters, Padding(n));
  }

  lemma PaddingIsShort(n: nat)
    ensures Padding(n) == "" || Padding(n) == "=" || Padding(n) == "=="
  {
  }

  lemma PaddingStrips(letters: string, padding: string)
    requires forall i :: 0 <= i < |letters| ==> IsBase64Char(letters[i])
    requires padding == "" || padding == "=" || padding == "=="
    requires (|letters| + |padding|) % 4 == 0
    ensures Stripped(letters + padding) == letters && IsBase64(letters + padding)
  {
    var s := letters + padding;
    assert s[..|letters|] == letters;
    assert letters != "" ==> IsBase64Char(letters[|letters| - 1]);
    assert |padding| == 1 ==> |letters| > 0 && s[|s| - 1] == '=' && s[|s| - 2] == letters[|letters| - 1];
    assert |padding| == 2 ==> s[|s| - 1] == '=' && s[|s| - 2] == '=';
    assert padding == "" && letters != "" ==> s[|s| - 1] == letters[|letters| - 1];
  }

  /** Every byte string survives base64, and what is printed fits the validator's pattern. */
  lemma FromUndoesToBase64(bytes: Bytes)
    ensures FromBase64(ToBase64(bytes)) == Some(bytes)
    ensures IsBase64(ToBase64(bytes)) && |ToBase64(bytes)| == (|bytes| + 2) / 3 * 4
  {
    DecodeUndoesLetters(bytes);
    ToBase64Strips(bytes);
  }
}
