/** A platform that keeps every law asked of one, so that what is proved from the laws is not proved from nothing. */
module PlatformWitness {
  import opened Bytes
  import opened Doubles
  import opened Json
  import opened Manifest
  import opened Suites
  import opened Text
  import opened Validate
  import opened Wrappers

  // ----- A coding of JSON as text from which the value can be recovered -----

  /** Each character behind a mark, and an end mark. */
  function CodeText(s: string): string {
    if s == "" then "." else "'" + [s[0]] + CodeText(s[1..])
  }

  function IntText(n: int): string {
    if n < 0 then "-" + Decimal(-n) else Decimal(n)
  }

  function CodeInt(n: int): string {
    CodeText(IntText(n))
  }

  ghost predicate IsScaled(x: real, m: int, e: int) {
    -EXACT < m < EXACT && -1074 <= e <= 971 && Scaled(m, e) == x
  }

  lemma HeldIsScaled(x: real) returns (m: int, e: int)
    requires x in Held()
    ensures IsScaled(x, m, e)
  {
    m, e :| -EXACT < m < EXACT && -1074 <= e <= 971 && Scaled(m, e) == x;
  }

  lemma HeldHasParts(x: real)
    requires x in Held()
    ensures exists m, e :: IsScaled(x, m, e)
  {
    var m, e := HeldIsScaled(x);
  }

  /** A double as significand and exponent. */
  ghost function Parts(x: real): (parts: (int, int))
    requires x in Held()
    ensures IsScaled(x, parts.0, parts.1)
  {
    HeldHasParts(x);
    var m, e :| IsScaled(x, m, e);
    (m, e)
  }

  ghost function CodeNumber(x: real): string {
    if x in Held() then "#" + (CodeInt(Parts(x).0) + CodeInt(Parts(x).1)) else "?"
  }

  ghost function FirstKey(fields: map<string, Json>): (key: string)
    requires fields != map[]
    ensures key in fields
  {
    assert exists key :: key in fields;
    var key :| key in fields;
    key
  }

  ghost function Code(j: Json): string
    decreases j
  {
    match j
    case Null => "n"
    case Bool(bit) => if bit then "t" else "b"
    case Num(value) => CodeNumber(value)
    case Str(text) => "s" + CodeText(text)
    case Arr(items) => "[" + CodeItems(j, items)
    case Obj(fields) => "{" + CodeFields(j, fields)
  }

  ghost function CodeItems(context: Json, items: seq<Json>): string
    requires forall i :: 0 <= i < |items| ==> items[i] < context
    decreases context, |items|
  {
    if items == [] then "." else "," + (Code(items[0]) + CodeItems(context, items[1..]))
  }

  ghost function CodeFields(context: Json, fields: map<string, Json>): string
    requires forall key :: key in fields ==> fields[key] < context
    decreases context, |fields|
  {
    if fields == map[] then "."
    else
      var key := FirstKey(fields);
      assert |fields - {key}| < |fields|;
      ":" + (CodeText(key) + (Code(fields[key]) + CodeFields(context, fields - {key})))
  }

  // ----- What is coded is recovered -----

  /** Where two marked texts agree, so do the marks and what follows them. */
  lemma MarkSplits(c: string, s: string, x: string, d: string, t: string, y: string)
    requires |c| == |d| == 1 && (c + s) + x == (d + t) + y
    ensures c == d && s + x == t + y
  {
    var a, b := (c + s) + x, (d + t) + y;
    assert a[..1] == c && b[..1] == d && a[1..] == s + x && b[1..] == t + y;
  }

  lemma Regroup(s: string, t: string, x: string)
    ensures (s + t) + x == s + (t + x)
  {
  }

  lemma {:induction false} TextSplits(s: string, t: string, x: string, y: string)
    requires CodeText(s) + x == CodeText(t) + y
    ensures s == t && x == y
  {
    var a, b := CodeText(s) + x, CodeText(t) + y;
    assert a[0] == b[0];
    if s == "" {
      assert a[1..] == x && b[1..] == y;
    } else {
      assert a[1] == b[1];
      assert a[2..] == CodeText(s[1..]) + x && b[2..] == CodeText(t[1..]) + y;
      TextSplits(s[1..], t[1..], x, y);
      assert s == [s[0]] + s[1..] && t == [t[0]] + t[1..];
    }
  }

  lemma IntTextIsInjective(m: int, n: int)
    requires IntText(m) == IntText(n)
    ensures m == n
  {
    var k: nat, l: nat := if m < 0 then -m else m, if n < 0 then -n else n;
    assert IntText(m)[0] == '-' <==> m < 0;
    assert IntText(n)[0] == '-' <==> n < 0;
    if m < 0 {
      assert IntText(m)[1..] == Decimal(k) && IntText(n)[1..] == Decimal(l);
    }
    DecimalIsInjective(k, l);
  }

  lemma IntSplits(m: int, n: int, x: string, y: string)
    requires CodeInt(m) + x == CodeInt(n) + y
    ensures m == n && x == y
  {
    TextSplits(IntText(m), IntText(n), x, y);
    IntTextIsInjective(m, n);
  }

  lemma NumberSplits(v: real, w: real, x: string, y: string)
    requires v in Held() && w in Held()
    requires (CodeInt(Parts(v).0) + CodeInt(Parts(v).1)) + x == (CodeInt(Parts(w).0) + CodeInt(Parts(w).1)) + y
    ensures v == w && x == y
  {
    var p, q := Parts(v), Parts(w);
    var a, b, c, d := CodeInt(p.0), CodeInt(p.1), CodeInt(q.0), CodeInt(q.1);
    Regroup(a, b, x);
    Regroup(c, d, y);
    IntSplits(p.0, q.0, b + x, d + y);
    IntSplits(p.1, q.1, x, y);
  }

  /** The mark in front of every value, which tells its kind and which of the two truth values it is. */
  function Mark(j: Json): (c: string)
    ensures |c| == 1
  {
    match j
    case Null => "n"
    case Bool(bit) => if bit then "t" else "b"
    case Num(_) => "#"
    case Str(_) => "s"
    case Arr(_) => "["
    case Obj(_) => "{"
  }

  /** What follows the mark. */
  ghost function Tail(j: Json): string
    requires HeldNumbers(j)
  {
    match j
    case Num(value) => CodeInt(Parts(value).0) + CodeInt(Parts(value).1)
    case Str(text) => CodeText(text)
    case Arr(items) => CodeItems(j, items)
    case Obj(fields) => CodeFields(j, fields)
    case _ => ""
  }

  lemma CodeIsMarked(j: Json)
    requires HeldNumbers(j)
    ensures Code(j) == Mark(j) + Tail(j)
  {
  }

  lemma {:induction false} CodeSplits(j: Json, k: Json, x: string, y: string)
    requires HeldNumbers(j) && HeldNumbers(k) && Code(j) + x == Code(k) + y
    ensures j == k && x == y
    decreases j
  {
    CodeIsMarked(j);
    CodeIsMarked(k);
    MarkSplits(Mark(j), Tail(j), x, Mark(k), Tail(k), y);
    SameKind(j, k);
    if j.Num? {
      NumberSplits(j.value, k.value, x, y);
    } else if j.Str? {
      TextSplits(j.text, k.text, x, y);
    } else if j.Arr? {
      ItemsSplit(j, j.items, k, k.items, x, y);
    } else if j.Obj? {
      FieldsSplit(j, j.fields, k, k.fields, x, y);
    } else {
      assert Tail(j) + x == x && Tail(k) + y == y;
    }
  }

  lemma SameKind(j: Json, k: Json)
    requires Mark(j) == Mark(k)
    ensures (j.Num? <==> k.Num?) && (j.Str? <==> k.Str?) && (j.Arr? <==> k.Arr?) && (j.Obj? <==> k.Obj?)
    ensures (j.Null? <==> k.Null?) && (j.Bool? ==> j == k)
  {
    assert Mark(j)[0] == Mark(k)[0];
  }

  lemma {:induction false} ItemsSplit(c: Json, items: seq<Json>, d: Json, others: seq<Json>, x: string, y: string)
    requires forall i :: 0 <= i < |items| ==> items[i] < c && HeldNumbers(items[i])
    requires forall i :: 0 <= i < |others| ==> others[i] < d && HeldNumbers(others[i])
    requires CodeItems(c, items) + x == CodeItems(d, others) + y
    ensures items == others && x == y
    decreases c, |items|
  {
    var a, b := CodeItems(c, items) + x, CodeItems(d, others) + y;
    assert a[0] == b[0];
    if items == [] {
      assert a[1..] == x && b[1..] == y;
    } else {
      var restA, restB := CodeItems(c, items[1..]), CodeItems(d, others[1..]);
      ItemSplits(Code(items[0]), restA, x, Code(others[0]), restB, y);
      CodeSplits(items[0], others[0], restA + x, restB + y);
      ItemsSplit(c, items[1..], d, others[1..], x, y);
      assert items == [items[0]] + items[1..] && others == [others[0]] + others[1..];
    }
  }

  lemma ItemSplits(value: string, rest: string, x: string, value': string, rest': string, y: string)
    requires ("," + (value + rest)) + x == ("," + (value' + rest')) + y
    ensures value + (rest + x) == value' + (rest' + y)
  {
    MarkSplits(",", value + rest, x, ",", value' + rest', y);
    Regroup(value, rest, x);
    Regroup(value', rest', y);
  }

  lemma {:induction false} FieldsSplit(c: Json, fields: map<string, Json>, d: Json, others: map<string, Json>,
                                       x: string, y: string)
    requires forall key :: key in fields ==> fields[key] < c && HeldNumbers(fields[key])
    requires forall key :: key in others ==> others[key] < d && HeldNumbers(others[key])
    requires CodeFields(c, fields) + x == CodeFields(d, others) + y
    ensures fields == others && x == y
    decreases c, |fields|
  {
    var a, b := CodeFields(c, fields) + x, CodeFields(d, others) + y;
    assert a[0] == b[0];
    if fields == map[] {
      assert a[1..] == x && b[1..] == y;
    } else {
      var key, other := FirstKey(fields), FirstKey(others);
      var restA, restB := CodeFields(c, fields - {key}), CodeFields(d, others - {other});
      FieldSplits(key, Code(fields[key]), restA, x, other, Code(others[other]), restB, y);
      CodeSplits(fields[key], others[key], restA + x, restB + y);
      FieldsSplit(c, fields - {key}, d, others - {key}, x, y);
      SameButOne(fields, others, key);
    }
  }

  lemma FieldSplits(key: string, value: string, rest: string, x: string, other: string, value': string, rest': string,
                    y: string)
    requires (":" + (CodeText(key) + (value + rest))) + x == (":" + (CodeText(other) + (value' + rest'))) + y
    ensures key == other && value + (rest + x) == value' + (rest' + y)
  {
    MarkSplits(":", CodeText(key) + (value + rest), x, ":", CodeText(other) + (value' + rest'), y);
    Regroup(CodeText(key), value + rest, x);
    Regroup(CodeText(other), value' + rest', y);
    TextSplits(key, other, (value + rest) + x, (value' + rest') + y);
    Regroup(value, rest, x);
    Regroup(value', rest', y);
  }

  lemma SameButOne(fields: map<string, Json>, others: map<string, Json>, key: string)
    requires key in fields && key in others && fields[key] == others[key] && fields - {key} == others - {key}
    ensures fields == others
  {
    forall k | k in fields ensures k in others && others[k] == fields[k] {
      assert k != key ==> k in fields - {key} && (fields - {key})[k] == fields[k];
    }
    forall k | k in others ensures k in fields {
      assert k != key ==> k in others - {key};
    }
  }

  // ----- The platform -----

  ghost function Decode(s: string): Option<Json> {
    if exists j :: HeldNumbers(j) && Code(j) == s then
      var j :| HeldNumbers(j) && Code(j) == s;
      Some(j)
    else None
  }

  lemma DecodeUndoesCode(j: Json)
    requires HeldNumbers(j)
    ensures Decode(Code(j)) == Some(j)
  {
    forall k | HeldNumbers(k) && Code(k) == Code(j) ensures k == j {
      CodeSplits(k, j, "", "");
    }
  }

  ghost function TextOf(bytes: Bytes): string {
    if exists s :: Utf8(s) == bytes then
      var s :| Utf8(s) == bytes;
      s
    else ""
  }

  lemma TextOfUndoesUtf8(s: string)
    ensures TextOf(Utf8(s)) == s
  {
    forall t | Utf8(t) == Utf8(s) ensures t == s {
      Utf8IsInjective(t, s);
    }
  }

  lemma JsonIsCarried()
    ensures forall j :: HeldNumbers(j) ==> TextOf(Utf8(Code(j))) == Code(j) && Decode(Code(j)) == Some(j)
  {
    forall j | HeldNumbers(j) ensures TextOf(Utf8(Code(j))) == Code(j) && Decode(Code(j)) == Some(j) {
      TextOfUndoesUtf8(Code(j));
      DecodeUndoesCode(j);
    }
  }

  const ZEROS: Digest := seq(32, _ => 0)

  ghost const WITNESS: Platform := Platform(
    (x: Bytes) => ZEROS, (key: Bytes, salt: Bytes, info: Bytes, n: nat) => seq(n, _ => 0),
    Ciphers(TRANSPARENT, TRANSPARENT), (passphrase: string, salt: Bytes, kdf: Kdf) => ZEROS,
    (j: Json) => Code(j), (s: string) => Decode(s), (bytes: Bytes) => TextOf(bytes), "")

  /** All that the theorems ask of a platform can be had at once. */
  lemma PlatformExists()
    ensures LawfulPlatform(WITNESS)
  {
    LawsAreSatisfiable();
    JsonIsCarried();
  }
}
