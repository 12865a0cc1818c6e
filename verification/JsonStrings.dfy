/** Quoted strings and number tokens are read back exactly. */
module JsonStrings {
  import opened JsonText
  import opened Wrappers

  lemma HexDigitIsReadBack(d: nat)
    requires d < 16
    ensures HexValue(HexDigit(d)) == Some(d)
  {
  }

  lemma FourDigits(n: nat)
    requires n < 65536
    ensures n / 4096 < 16 && n == n / 4096 * 4096 + n / 256 % 16 * 256 + n / 16 % 16 * 16 + n % 16
  {
    assert n / 16 / 16 == n / 256 && n / 256 / 16 == n / 4096;
    assert n == n / 16 * 16 + n % 16;
    assert n / 16 == n / 256 * 16 + n / 16 % 16;
    assert n / 256 == n / 4096 * 16 + n / 256 % 16;
  }

  lemma FourHexIsReadBack(u: Unit, x: Text)
    requires x == UnicodeEscape(u)[2..]
    ensures FourHex(x) == Some(u)
  {
    var n := u as nat;
    FourDigits(n);
    HexDigitIsReadBack(n / 4096);
    HexDigitIsReadBack(n / 256 % 16);
    HexDigitIsReadBack(n / 16 % 16);
    HexDigitIsReadBack(n % 16);
  }

  lemma EscapedUnitIsReadBack(u: Unit, x: Text)
    ensures ParseUnit(UnicodeEscape(u) + x) == Some((u, x))
  {
    var s := UnicodeEscape(u) + x;
    assert s[2..][..4] == UnicodeEscape(u)[2..];
    FourHexIsReadBack(u, UnicodeEscape(u)[2..]);
    assert FourHex(s[2..]) == FourHex(UnicodeEscape(u)[2..]);
    assert s[6..] == x;
  }

  lemma UnitIsReadBack(u: Unit, x: Text)
    ensures ParseUnit(QuoteUnit(u) + x) == Some((u, x))
    ensures QuoteUnit(u)[0] != QUOTE
  {
    if ShortEscape(u).Some? {
      assert Unescape(ShortEscape(u).value) == Some(u) && ShortEscape(u).value != LOWER_U;
      assert (QuoteUnit(u) + x)[2..] == x;
    } else if u < 32 || IsHigh(u) || IsLow(u) {
      EscapedUnitIsReadBack(u, x);
    } else {
      assert (QuoteUnit(u) + x)[1..] == x;
    }
  }

  lemma PushUnit(u: Unit, quoted: Text, x: Text, text: Text, after: Text)
    requires quoted != [] && quoted[0] != QUOTE && ParseUnit(quoted + x) == Some((u, x))
    requires ParseString(x) == Some((text, after))
    ensures ParseString(quoted + x) == Some(([u] + text, after))
  {
  }

  lemma PushPlain(u: Unit, x: Text, text: Text, after: Text)
    requires u >= 32 && u != QUOTE && u != BACKSLASH && ParseString(x) == Some((text, after))
    ensures ParseString([u] + x) == Some(([u] + text, after))
  {
    assert ([u] + x)[1..] == x;
    assert ParseUnit([u] + x) == Some((u, x));
  }

  lemma PushPair(s: Text, x: Text, text: Text, after: Text)
    requires s != [] && Span(s) == 2 && ParseString(x) == Some((text, after))
    ensures ParseString(s[..2] + x) == Some((s[..2] + text, after))
  {
    PushPlain(s[1], x, text, after);
    PushPlain(s[0], [s[1]] + x, [s[1]] + text, after);
    assert s[..2] == [s[0]] + [s[1]];
    assert s[..2] + x == [s[0]] + ([s[1]] + x);
    assert s[..2] + text == [s[0]] + ([s[1]] + text);
  }

  ghost predicate ReadsBack(s: Text, end: Text, rest: Text) {
    ParseString(QuoteBody(s) + end) == Some((s, rest))
  }

  lemma PairReadsBack(s: Text, end: Text, rest: Text)
    requires s != [] && Span(s) == 2 && ReadsBack(s[2..], end, rest)
    ensures ReadsBack(s, end, rest)
  {
    var pair, tail := s[..2], s[2..];
    var x := QuoteBody(tail) + end;
    PushPair(s, x, tail, rest);
    assert s == pair + tail;
    SameText(QuoteBody(s), pair, QuoteBody(tail), end);
  }

  lemma SameText(whole: Text, a: Text, b: Text, c: Text)
    requires whole == a + b
    ensures whole + c == a + (b + c)
  {
  }

  lemma UnitReadsBack(s: Text, end: Text, rest: Text)
    requires s != [] && Span(s) == 1 && ReadsBack(s[1..], end, rest)
    ensures ReadsBack(s, end, rest)
  {
    var quoted, tail := QuoteUnit(s[0]), s[1..];
    var x := QuoteBody(tail) + end;
    UnitIsReadBack(s[0], x);
    PushUnit(s[0], quoted, x, tail, rest);
    assert s == [s[0]] + tail;
    SameText(QuoteBody(s), quoted, QuoteBody(tail), end);
  }

  /** Every string, lone surrogates and control characters included, survives quoting. */
  lemma {:induction false} StringIsReadBack(s: Text, end: Text, rest: Text)
    requires end == [QUOTE] + rest
    ensures ReadsBack(s, end, rest)
  {
    if s == [] {
      assert QuoteBody(s) + end == end && end[1..] == rest;
    } else if Span(s) == 2 {
      StringIsReadBack(s[2..], end, rest);
      PairReadsBack(s, end, rest);
    } else {
      StringIsReadBack(s[1..], end, rest);
      UnitReadsBack(s, end, rest);
    }
  }

  // ----- Numbers -----

  predicate Delimited(rest: Text) {
    rest == [] || !IsNumberUnit(rest[0])
  }

  predicate AllNumberUnits(s: Text) {
    forall i :: 0 <= i < |s| ==> IsNumberUnit(s[i])
  }

  lemma DigitRunIsDigits(s: Text)
    ensures forall i :: 0 <= i < DigitRun(s) ==> IsDigit(s[i])
  {
  }

  lemma ExponentUnits(s: Text)
    requires IsExponent(s)
    ensures AllNumberUnits(s)
  {
    if s != [] {
      var signed := |s| > 1 && (s[1] == 43 || s[1] == 45);
      var t := if signed then s[2..] else s[1..];
      DigitRunIsDigits(t);
      forall i | 0 <= i < |s| ensures IsNumberUnit(s[i]) {
        if signed && i >= 2 {
          assert s[i] == t[i - 2];
        } else if !signed && i >= 1 {
          assert s[i] == t[i - 1];
        }
      }
    }
  }

  lemma FractionUnits(s: Text)
    requires IsFractionAndExponent(s)
    ensures AllNumberUnits(s)
  {
    if s != [] && s[0] == 46 {
      var t := s[1..];
      var n := DigitRun(t);
      DigitRunIsDigits(t);
      ExponentUnits(s[1 + n..]);
      forall i | 0 <= i < |s| ensures IsNumberUnit(s[i]) {
        if 1 <= i < 1 + n {
          assert s[i] == t[i - 1];
        } else if i >= 1 + n {
          assert s[i] == s[1 + n..][i - 1 - n];
        }
      }
    } else {
      ExponentUnits(s);
    }
  }

  lemma NumberUnits(s: Text)
    requires IsNumber(s)
    ensures AllNumberUnits(s) && s != [] && (s[0] == 45 || IsDigit(s[0]))
  {
    var k := if s != [] && s[0] == 45 then 1 else 0;
    var t := s[k..];
    var n := DigitRun(t);
    assert t == if s != [] && s[0] == 45 then s[1..] else s;
    DigitRunIsDigits(t);
    FractionUnits(t[n..]);
    forall i | 0 <= i < |s| ensures IsNumberUnit(s[i]) {
      if k <= i < k + n {
        assert s[i] == t[i - k];
      } else if i >= k + n {
        assert s[i] == t[n..][i - k - n];
      }
    }
    assert t[0] == s[k];
  }

  lemma {:induction false} NumberRunStops(s: Text, rest: Text)
    requires AllNumberUnits(s) && Delimited(rest)
    ensures NumberRun(s + rest) == |s|
  {
    if s == [] {
      assert s + rest == rest;
    } else {
      assert (s + rest)[1..] == s[1..] + rest;
      NumberRunStops(s[1..], rest);
    }
  }

  /** `0`, `-0.5`, `10e+9` and `9E-0` are numbers. */
  lemma NumberSamples()
    ensures IsNumber([48]) && IsNumber([45, 48, 46, 53])
    ensures IsNumber([49, 48, 101, 43, 57]) && IsNumber([57, 69, 45, 48])
  {
    assert [45, 48, 46, 53][1..] == [48, 46, 53] && [48, 46, 53][1..] == [46, 53] && [46, 53][1..] == [53];
    assert DigitRun([48, 46, 53]) == 1 && [53][1..] == [];
    assert [49, 48, 101, 43, 57][1..] == [48, 101, 43, 57] && [48, 101, 43, 57][1..] == [101, 43, 57];
    assert DigitRun([49, 48, 101, 43, 57]) == 2 && [49, 48, 101, 43, 57][2..] == [101, 43, 57];
    assert [101, 43, 57][2..] == [57];
    assert [57, 69, 45, 48][1..] == [69, 45, 48] && [69, 45, 48][2..] == [48];
  }

  /** `-`, `01`, `+1`, `1.`, `.5`, `1e` and `1e+` are none. */
  lemma NoNumberSamples()
    ensures !IsNumber([]) && !IsNumber([45]) && !IsNumber([48, 49]) && !IsNumber([43, 49]) && !IsNumber([49, 46])
    ensures !IsNumber([46, 53]) && !IsNumber([49, 101]) && !IsNumber([49, 101, 43]) && !IsNumber([49, 58])
  {
    assert [48, 49][1..] == [49] && DigitRun([48, 49]) == 2;
    assert [49, 46][1..] == [46] && [46][1..] == [] && [49, 101][1..] == [101] && [101][1..] == [];
    assert [49, 101, 43][1..] == [101, 43] && [101, 43][2..] == [] && [49, 58][1..] == [58] && [45][1..] == [];
  }

  lemma NumberIsReadBack(token: Text, rest: Text)
    requires IsNumber(token) && Delimited(rest)
    ensures ParseNumber(token + rest) == Some((Number(token), rest))
  {
    NumberUnits(token);
    NumberRunStops(token, rest);
    assert (token + rest)[..|token|] == token && (token + rest)[|token|..] == rest;
  }
}
