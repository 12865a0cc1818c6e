/**
 * Canonical JSON as receipts are signed over (js/core/receipt.js), and a parser for JSON text (RFC 8259).
 *
 * Text is a sequence of UTF-16 code units, as in JavaScript: keys are ordered by code unit (section 3.2.3 of RFC
 * 8785) and a lone surrogate is escaped.
 */
module JsonText {
  import opened Wrappers

  newtype Unit = x: int | 0 <= x < 65536

  type Text = seq<Unit>

  const QUOTE: Unit := 34
  const BACKSLASH: Unit := 92
  const COMMA: Unit := 44
  const COLON: Unit := 58
  const OPEN_BRACKET: Unit := 91
  const CLOSE_BRACKET: Unit := 93
  const OPEN_BRACE: Unit := 123
  const CLOSE_BRACE: Unit := 125
  const LOWER_U: Unit := 117
  const TRUE_TEXT: Text := [116, 114, 117, 101]
  const FALSE_TEXT: Text := [102, 97, 108, 115, 101]
  const NULL_TEXT: Text := [110, 117, 108, 108]

  // ----- Values -----

  /** A finite number stands for the decimal text JSON.stringify prints for it; minus zero prints as zero. */
  datatype Value =
    | Undefined
    | Null
    | Bool(bit: bool)
    | Number(token: Text)
    | String(text: Text)
    | Array(items: seq<Value>)
    | Object(members: seq<Member>)

  /** Members are in insertion order. */
  datatype Member = Member(key: Text, value: Value)

  // ----- Number tokens: section 6 of RFC 8259 -----

  predicate IsDigit(u: Unit) {
    48 <= u <= 57
  }

  function DigitRun(s: Text): (n: nat)
    ensures n <= |s|
  {
    if s != [] && IsDigit(s[0]) then 1 + DigitRun(s[1..]) else 0
  }

  predicate IsExponent(s: Text) {
    s == [] || ((s[0] == 101 || s[0] == 69) && (
                  var t := if |s| > 1 && (s[1] == 43 || s[1] == 45) then s[2..] else s[1..];
                  t != [] && DigitRun(t) == |t|))
  }

  predicate IsFractionAndExponent(s: Text) {
    if s != [] && s[0] == 46 then
      var n := DigitRun(s[1..]);
      n > 0 && IsExponent(s[1 + n..])
    else IsExponent(s)
  }

  predicate IsNumber(s: Text) {
    var t := if s != [] && s[0] == 45 then s[1..] else s;
    var n := DigitRun(t);
    n > 0 && (t[0] == 48 ==> n == 1) && IsFractionAndExponent(t[n..])
  }

  predicate IsNumberUnit(u: Unit) {
    IsDigit(u) || u == 43 || u == 45 || u == 46 || u == 69 || u == 101
  }

  // ----- Strings: section 7 of RFC 8259 -----

  predicate IsHigh(u: Unit) {
    0xD800 <= u <= 0xDBFF
  }

  predicate IsLow(u: Unit) {
    0xDC00 <= u <= 0xDFFF
  }

  function HexDigit(d: nat): (u: Unit)
    requires d < 16
  {
    if d < 10 then (48 + d) as Unit else (87 + d) as Unit
  }

  function HexValue(u: Unit): (v: Option<nat>)
    ensures v.Some? ==> v.value < 16
  {
    if 48 <= u <= 57 then Some(u as nat - 48)
    else if 97 <= u <= 102 then Some(u as nat - 87)
    else if 65 <= u <= 70 then Some(u as nat - 55)
    else None
  }

  function UnicodeEscape(u: Unit): Text {
    var n := u as nat;
    [BACKSLASH, LOWER_U, HexDigit(n / 4096), HexDigit(n / 256 % 16), HexDigit(n / 16 % 16), HexDigit(n % 16)]
  }

  /** The letter after the backslash, for the units that have one. */
  function ShortEscape(u: Unit): Option<Unit> {
    match u
    case 34 => Some(34)
    case 92 => Some(92)
    case 8 => Some(98)
    case 12 => Some(102)
    case 10 => Some(110)
    case 13 => Some(114)
    case 9 => Some(116)
    case _ => None
  }

  /** How many units are printed together: a surrogate pair is printed as it is. */
  function Span(s: Text): nat
    requires s != []
  {
    if |s| > 1 && IsHigh(s[0]) && IsLow(s[1]) then 2 else 1
  }

  function QuoteUnit(u: Unit): Text {
    if ShortEscape(u).Some? then [BACKSLASH, ShortEscape(u).value]
    else if u < 32 || IsHigh(u) || IsLow(u) then UnicodeEscape(u)
    else [u]
  }

  function QuoteBody(s: Text): Text {
    if s == [] then []
    else if Span(s) == 2 then s[..2] + QuoteBody(s[2..])
    else QuoteUnit(s[0]) + QuoteBody(s[1..])
  }

  function Quote(s: Text): Text {
    [QUOTE] + QuoteBody(s) + [QUOTE]
  }

  function Unescape(u: Unit): Option<Unit> {
    match u
    case 34 => Some(34)
    case 92 => Some(92)
    case 47 => Some(47)
    case 98 => Some(8)
    case 102 => Some(12)
    case 110 => Some(10)
    case 114 => Some(13)
    case 116 => Some(9)
    case _ => None
  }

  function FourHex(s: Text): Option<Unit>
    requires |s| >= 4
  {
    match (HexValue(s[0]), HexValue(s[1]), HexValue(s[2]), HexValue(s[3]))
    case (Some(a), Some(b), Some(c), Some(d)) => Some((a * 4096 + b * 256 + c * 16 + d) as Unit)
    case _ => None
  }

  /** One unit of a string and what follows it. */
  function ParseUnit(s: Text): (r: Option<(Unit, Text)>)
    ensures r.Some? ==> |r.value.1| < |s|
  {
    if s == [] || s[0] < 32 || s[0] == QUOTE then None
    else if s[0] != BACKSLASH then Some((s[0], s[1..]))
    else if |s| >= 6 && s[1] == LOWER_U then
      (match FourHex(s[2..]) case None => None case Some(u) => Some((u, s[6..])))
    else if |s| >= 2 && Unescape(s[1]).Some? then Some((Unescape(s[1]).value, s[2..]))
    else None
  }

  /** The rest of a string after its opening quote. */
  function ParseString(s: Text): (r: Option<(Text, Text)>)
    ensures r.Some? ==> |r.value.1| < |s|
    decreases |s|
  {
    if s == [] then None
    else if s[0] == QUOTE then Some(([], s[1..]))
    else
      match ParseUnit(s) {
        case None => None
        case Some((u, rest)) =>
          match ParseString(rest) {
            case None => None
            case Some((text, after)) => Some(([u] + text, after))
          }
      }
  }

  // ----- Values: sections 2 to 5 of RFC 8259 -----

  predicate IsSpace(u: Unit) {
    u == 32 || u == 9 || u == 10 || u == 13
  }

  function SkipSpace(s: Text): (t: Text)
    ensures |t| <= |s|
  {
    if s != [] && IsSpace(s[0]) then SkipSpace(s[1..]) else s
  }

  function NumberRun(s: Text): (n: nat)
    ensures n <= |s|
  {
    if s != [] && IsNumberUnit(s[0]) then 1 + NumberRun(s[1..]) else 0
  }

  function ParseNumber(s: Text): (r: Option<(Value, Text)>)
    ensures r.Some? ==> |r.value.1| < |s|
  {
    var n := NumberRun(s);
    if n > 0 && IsNumber(s[..n]) then Some((Number(s[..n]), s[n..])) else None
  }

  function ParseValue(s: Text): (r: Option<(Value, Text)>)
    ensures r.Some? ==> |r.value.1| < |s|
    decreases |s|, 0
  {
    var t := SkipSpace(s);
    if t == [] then None
    else if t[0] == QUOTE then
      (match ParseString(t[1..]) case None => None case Some((text, rest)) => Some((String(text), rest)))
    else if t[0] == OPEN_BRACKET then
      var u := SkipSpace(t[1..]);
      if u != [] && u[0] == CLOSE_BRACKET then Some((Array([]), u[1..]))
      else (match ParseItems(u) case None => None case Some((items, rest)) => Some((Array(items), rest)))
    else if t[0] == OPEN_BRACE then
      var u := SkipSpace(t[1..]);
      if u != [] && u[0] == CLOSE_BRACE then Some((Object([]), u[1..]))
      else (match ParseMembers(u) case None => None case Some((members, rest)) => Some((Object(members), rest)))
    else if TRUE_TEXT <= t then Some((Bool(true), t[4..]))
    else if FALSE_TEXT <= t then Some((Bool(false), t[5..]))
    else if NULL_TEXT <= t then Some((Null, t[4..]))
    else ParseNumber(t)
  }

  function ParseItems(s: Text): (r: Option<(seq<Value>, Text)>)
    ensures r.Some? ==> |r.value.1| < |s|
    decreases |s|, 1
  {
    match ParseValue(s)
    case None => None
    case Some((item, rest)) =>
      var t := SkipSpace(rest);
      if t != [] && t[0] == CLOSE_BRACKET then Some(([item], t[1..]))
      else if t != [] && t[0] == COMMA then
        (match ParseItems(t[1..]) case None => None case Some((items, after)) => Some(([item] + items, after)))
      else None
  }

  function ParseMembers(s: Text): (r: Option<(seq<Member>, Text)>)
    ensures r.Some? ==> |r.value.1| < |s|
    decreases |s|, 1
  {
    var t := SkipSpace(s);
    if t == [] || t[0] != QUOTE then None
    else
      match ParseString(t[1..]) {
        case None => None
        case Some((key, rest)) =>
          var u := SkipSpace(rest);
          if u == [] || u[0] != COLON then None
          else
            match ParseValue(u[1..]) {
              case None => None
              case Some((value, after)) => ParseMoreMembers(key, value, SkipSpace(after))
            }
      }
  }

  function ParseMoreMembers(key: Text, value: Value, t: Text): (r: Option<(seq<Member>, Text)>)
    ensures r.Some? ==> |r.value.1| < |t|
    decreases |t|, 2
  {
    if t != [] && t[0] == CLOSE_BRACE then Some(([Member(key, value)], t[1..]))
    else if t != [] && t[0] == COMMA then
      (match ParseMembers(t[1..])
       case None => None
       case Some((members, end)) => Some((PutFirst(Member(key, value), members), end)))
    else None
  }

  predicate HasKey(members: seq<Member>, key: Text) {
    exists i :: 0 <= i < |members| && members[i].key == key
  }

  /** A key that comes again keeps its first place and takes its last value. */
  function PutFirst(m: Member, members: seq<Member>): seq<Member> {
    if HasKey(members, m.key) then [Member(m.key, LastValue(members, m.key))] + Without(members, m.key)
    else [m] + members
  }

  function LastValue(members: seq<Member>, key: Text): Value
    requires HasKey(members, key)
  {
    var last := |members| - 1;
    if members[last].key == key then members[last].value else LastValue(members[..last], key)
  }

  function Without(members: seq<Member>, key: Text): seq<Member> {
    if members == [] then []
    else (if members[0].key == key then [] else [members[0]]) + Without(members[1..], key)
  }

  function Parse(s: Text): Option<Value> {
    match ParseValue(s)
    case None => None
    case Some((value, rest)) => if SkipSpace(rest) == [] then Some(value) else None
  }
}
