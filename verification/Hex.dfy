/** Hex encoding and the strict hex decoder of js/core/bytes.js. */
module Hex {
  import opened Bytes
  import opened Wrappers

  const HEX := "0123456789abcdef"

  datatype HexError = NotAString | OddLength | NotHex

  // ----- toHex and to0x -----

  function Encode(bytes: Bytes): string {
    if bytes == [] then ""
    else [HEX[bytes[0] as nat / 16], HEX[bytes[0] as nat % 16]] + Encode(bytes[1..])
  }

  function To0x(bytes: Bytes): string {
    "0x" + Encode(bytes)
  }

  lemma EncodeAppends(a: Bytes, b: Bytes)
    ensures Encode(a + b) == Encode(a) + Encode(b)
  {
    if a == [] {
      assert a + b == b;
    } else {
      assert (a + b)[1..] == a[1..] + b;
      EncodeAppends(a[1..], b);
    }
  }

  method ToHex(bytes: Bytes) returns (out: string)
    ensures out == Encode(bytes)
  {
    out := "";
    for i := 0 to |bytes|
      invariant out == Encode(bytes[..i])
    {
      assert bytes[..i + 1] == bytes[..i] + [bytes[i]];
      EncodeAppends(bytes[..i], [bytes[i]]);
      out := out + [HEX[bytes[i] as nat / 16], HEX[bytes[i] as nat % 16]];
    }
    assert bytes[..|bytes|] == bytes;
  }

  // ----- fromHex -----

  function DigitValue(c: char): (v: Option<nat>)
    ensures v.Some? ==> v.value < 16
  {
    if '0' <= c <= '9' then Some((c - '0') as nat)
    else if 'a' <= c <= 'f' then Some((c - 'a') as nat + 10)
    else if 'A' <= c <= 'F' then Some((c - 'A') as nat + 10)
    else None
  }

  predicate HexOnly(s: string) {
    forall i :: 0 <= i < |s| ==> DigitValue(s[i]).Some?
  }

  function Pair(high: char, low: char): byte
    requires DigitValue(high).Some? && DigitValue(low).Some?
  {
    (16 * DigitValue(high).value + DigitValue(low).value) as byte
  }

  function Clean(hex: string): string {
    if "0x" <= hex || "0X" <= hex then hex[2..] else hex
  }

  function Decode(clean: string): Bytes
    requires |clean| % 2 == 0 && HexOnly(clean)
  {
    if clean == "" then [] else [Pair(clean[0], clean[1])] + Decode(clean[2..])
  }

  function Decoded(hex: Option<string>): Result<Bytes, HexError> {
    if hex.None? then Err(NotAString)
    else if |Clean(hex.value)| % 2 != 0 then Err(OddLength)
    else if !HexOnly(Clean(hex.value)) then Err(NotHex)
    else Ok(Decode(Clean(hex.value)))
  }

  lemma DecodeAt(clean: string, i: nat)
    requires |clean| % 2 == 0 && HexOnly(clean)
    ensures |Decode(clean)| == |clean| / 2
    ensures i < |clean| / 2 ==> Decode(clean)[i] == Pair(clean[2 * i], clean[2 * i + 1])
  {
    if clean != "" {
      DecodeAt(clean[2..], if i == 0 then 0 else i - 1);
    }
  }

  /** `None` stands for an argument that is not a string. */
  method FromHex(hex: Option<string>) returns (r: Result<Bytes, HexError>)
    ensures r == Decoded(hex)
  {
    if hex.None? {
      return Err(NotAString);
    }
    var clean := if "0x" <= hex.value || "0X" <= hex.value then hex.value[2..] else hex.value;
    if |clean| % 2 != 0 {
      return Err(OddLength);
    }
    if !forall i :: 0 <= i < |clean| ==> DigitValue(clean[i]).Some? {
      return Err(NotHex);
    }
    var out := new byte[|clean| / 2];
    for i := 0 to out.Length
      invariant forall k :: 0 <= k < i ==> out[k] == Pair(clean[2 * k], clean[2 * k + 1])
    {
      out[i] := Pair(clean[2 * i], clean[2 * i + 1]);
    }
    DecodeAt(clean, 0);
    forall k | 0 <= k < out.Length ensures out[k] == Decode(clean)[k] {
      DecodeAt(clean, k);
    }
    assert out[..] == Decode(clean);
    return Ok(out[..]);
  }

  // ----- The two are inverse on lower-case hex -----

  predicate IsLowerHexDigit(c: char) {
    '0' <= c <= '9' || 'a' <= c <= 'f'
  }

  /** The repository's pattern for a 32-byte value: 0x and exactly 64 lower-case digits. */
  predicate IsHex32(s: string) {
    |s| == 66 && "0x" <= s && forall i :: 2 <= i < 66 ==> IsLowerHexDigit(s[i])
  }

  lemma DigitOfValue(n: nat)
    requires n < 16
    ensures IsLowerHexDigit(HEX[n]) && DigitValue(HEX[n]) == Some(n)
  {
  }

  lemma ValueOfDigit(c: char)
    requires IsLowerHexDigit(c)
    ensures DigitValue(c).Some? && HEX[DigitValue(c).value] == c
  {
  }

  lemma DivideSixteen(n: nat, high: nat, low: nat)
    requires n == 16 * high + low && low < 16
    ensures n / 16 == high && n % 16 == low
  {
  }

  lemma PairValue(high: char, low: char)
    requires DigitValue(high).Some? && DigitValue(low).Some?
    ensures Pair(high, low) as nat == 16 * DigitValue(high).value + DigitValue(low).value
  {
  }

  lemma PairOfDigits(high: char, low: char)
    requires IsLowerHexDigit(high) && IsLowerHexDigit(low)
    ensures HEX[Pair(high, low) as nat / 16] == high && HEX[Pair(high, low) as nat % 16] == low
  {
    ValueOfDigit(high);
    ValueOfDigit(low);
    PairValue(high, low);
    DivideSixteen(Pair(high, low) as nat, DigitValue(high).value, DigitValue(low).value);
  }

  lemma EncodeIsLowerHex(bytes: Bytes)
    ensures |Encode(bytes)| == 2 * |bytes|
    ensures forall i :: 0 <= i < |Encode(bytes)| ==> IsLowerHexDigit(Encode(bytes)[i])
    ensures HexOnly(Encode(bytes))
  {
    if bytes != [] {
      EncodeIsLowerHex(bytes[1..]);
      DigitOfValue(bytes[0] as nat / 16);
      DigitOfValue(bytes[0] as nat % 16);
    }
  }

  lemma {:induction false} DecodeUndoesEncode(bytes: Bytes)
    ensures HexOnly(Encode(bytes)) && |Encode(bytes)| % 2 == 0 && Decode(Encode(bytes)) == bytes
  {
    EncodeIsLowerHex(bytes);
    if bytes != [] {
      EncodeIsLowerHex(bytes[1..]);
      DecodeUndoesEncode(bytes[1..]);
      DigitsOfByte(bytes[0]);
      DecodeOneMore(bytes[0], HEX[bytes[0] as nat / 16], HEX[bytes[0] as nat % 16], Encode(bytes[1..]));
      assert bytes == [bytes[0]] + bytes[1..];
    }
  }

  lemma DigitsOfByte(b: byte)
    ensures var high, low := HEX[b as nat / 16], HEX[b as nat % 16];
      DigitValue(high).Some? && DigitValue(low).Some? && Pair(high, low) == b
  {
    DigitOfValue(b as nat / 16);
    DigitOfValue(b as nat % 16);
  }

  lemma DecodeOneMore(b: byte, high: char, low: char, rest: string)
    requires DigitValue(high).Some? && DigitValue(low).Some? && Pair(high, low) == b
    requires |rest| % 2 == 0 && HexOnly(rest)
    ensures var s := [high, low] + rest;
      |s| % 2 == 0 && HexOnly(s) && Decode(s) == [b] + Decode(rest)
  {
    assert ([high, low] + rest)[2..] == rest;
  }

  lemma {:induction false} EncodeUndoesDecode(s: string)
    requires |s| % 2 == 0 && HexOnly(s) && forall i :: 0 <= i < |s| ==> IsLowerHexDigit(s[i])
    ensures Encode(Decode(s)) == s
  {
    if s != "" {
      EncodeUndoesDecode(s[2..]);
      PairOfDigits(s[0], s[1]);
      assert Decode(s)[1..] == Decode(s[2..]);
      assert s == [s[0], s[1]] + s[2..];
    }
  }

  /** Decoding what `to0x` printed gives the bytes back, and 32 bytes always print as the 66-character pattern. */
  lemma DecodedUndoesTo0x(bytes: Bytes)
    ensures Decoded(Some(To0x(bytes))) == Ok(bytes)
    ensures |bytes| == 32 ==> IsHex32(To0x(bytes))
  {
    DecodeUndoesEncode(bytes);
    EncodeIsLowerHex(bytes);
    assert Clean(To0x(bytes)) == Encode(bytes);
  }

  /** A string that fits the pattern is the only such string for its 32 bytes. */
  lemma To0xUndoesDecoded(s: string)
    requires IsHex32(s)
    ensures Decoded(Some(s)).Ok? && |Decoded(Some(s)).value| == 32
    ensures To0x(Decoded(Some(s)).value) == s
  {
    var clean := s[2..];
    assert forall i :: 0 <= i < |clean| ==> clean[i] == s[i + 2];
    assert HexOnly(clean);
    DecodeAt(clean, 0);
    EncodeUndoesDecode(clean);
    assert s == "0x" + clean;
  }

  lemma To0xIsInjective(a: Bytes, b: Bytes)
    requires To0x(a) == To0x(b)
    ensures a == b
  {
    DecodedUndoesTo0x(a);
    DecodedUndoesTo0x(b);
  }

  // ----- toLowerCase, as far as ASCII results go -----

  /** The Kelvin sign, U+212A: besides A-Z the one character that JavaScript lower-cases to an ASCII letter alone. */
  const KELVIN := '\U{212A}'

  /**
   * JavaScript lower-cases more characters, but none of the others becomes ASCII, or not ASCII alone, so no
   * comparison of the result with an ASCII string changes.
   */
  function ToLower(s: string): string {
    seq(|s|, i requires 0 <= i < |s| =>
      if 'A' <= s[i] <= 'Z' then s[i] - 'A' + 'a' else if s[i] == KELVIN then 'k' else s[i])
  }

  lemma ToLowerKeepsHex32(s: string)
    requires IsHex32(s)
    ensures ToLower(s) == s
  {
  }
}
