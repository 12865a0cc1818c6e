/** A JSON parser undoes canonicalize: what comes back is the value in normal form. */
module CanonicalReading {
  import opened JsonStrings
  import opened JsonText
  import opened Receipt
  import opened Wrappers

  // ----- One parsing step each; `s` is always the text being parsed -----

  predicate StartsValue(s: Text) {
    s != [] && !IsSpace(s[0]) && s[0] != CLOSE_BRACKET && s[0] != CLOSE_BRACE
  }

  lemma EmptyArray(s: Text, rest: Text)
    requires s == [OPEN_BRACKET] + ([CLOSE_BRACKET] + rest)
    ensures ParseValue(s) == Some((Array([]), rest))
  {
    assert s[1..] == [CLOSE_BRACKET] + rest && s[1..][1..] == rest;
  }

  lemma EmptyObject(s: Text, rest: Text)
    requires s == [OPEN_BRACE] + ([CLOSE_BRACE] + rest)
    ensures ParseValue(s) == Some((Object([]), rest))
  {
    assert s[1..] == [CLOSE_BRACE] + rest && s[1..][1..] == rest;
  }

  lemma SomeItems(s: Text, u: Text, items: seq<Value>, rest: Text)
    requires s == [OPEN_BRACKET] + u && StartsValue(u) && ParseItems(u) == Some((items, rest))
    ensures ParseValue(s) == Some((Array(items), rest))
  {
    assert s[1..] == u;
  }

  lemma SomeMembers(s: Text, u: Text, members: seq<Member>, rest: Text)
    requires s == [OPEN_BRACE] + u && StartsValue(u) && ParseMembers(u) == Some((members, rest))
    ensures ParseValue(s) == Some((Object(members), rest))
  {
    assert s[1..] == u;
  }

  lemma LastItem(s: Text, item: Value, end: Text, rest: Text)
    requires end == [CLOSE_BRACKET] + rest && ParseValue(s) == Some((item, end))
    ensures ParseItems(s) == Some(([item], rest))
  {
    assert end[1..] == rest;
  }

  lemma MoreItems(s: Text, item: Value, between: Text, tail: Text, items: seq<Value>, rest: Text)
    requires between == [COMMA] + tail
    requires ParseValue(s) == Some((item, between)) && ParseItems(tail) == Some((items, rest))
    ensures ParseItems(s) == Some(([item] + items, rest))
  {
    assert between[1..] == tail;
  }

  lemma MemberStep(s: Text, q: Text, key: Text, between: Text, x: Text, value: Value, after: Text)
    requires s == [QUOTE] + q && between == [COLON] + x
    requires ParseString(q) == Some((key, between)) && ParseValue(x) == Some((value, after))
    ensures ParseMembers(s) == ParseMoreMembers(key, value, SkipSpace(after))
  {
    assert s[1..] == q && between[1..] == x;
  }

  lemma StringStep(s: Text, q: Text, text: Text, rest: Text)
    requires s == [QUOTE] + q && ParseString(q) == Some((text, rest))
    ensures ParseValue(s) == Some((String(text), rest))
  {
    assert s[1..] == q;
  }

  lemma QuotedIsReadBack(q: Text, text: Text, rest: Text)
    requires q == (QuoteBody(text) + [QUOTE]) + rest
    ensures ParseString(q) == Some((text, rest))
  {
    StringIsReadBack(text, [QUOTE] + rest, rest);
    SameText(QuoteBody(text) + [QUOTE], QuoteBody(text), [QUOTE], rest);
  }

  lemma LiteralIsReadBack(s: Text, rest: Text)
    ensures s == TRUE_TEXT + rest ==> ParseValue(s) == Some((Bool(true), rest))
    ensures s == FALSE_TEXT + rest ==> ParseValue(s) == Some((Bool(false), rest))
    ensures s == NULL_TEXT + rest ==> ParseValue(s) == Some((Null, rest))
  {
    assert s == TRUE_TEXT + rest ==> s[4..] == rest && TRUE_TEXT <= s;
    assert s == FALSE_TEXT + rest ==> s[5..] == rest && FALSE_TEXT <= s;
    assert s == NULL_TEXT + rest ==> s[4..] == rest && NULL_TEXT <= s;
  }

  lemma NumberStep(s: Text, token: Text, rest: Text)
    requires IsNumber(token) && Delimited(rest) && s == token + rest
    ensures ParseValue(s) == Some((Number(token), rest))
  {
    NumberUnits(token);
    NumberIsReadBack(token, rest);
    assert s[0] == token[0];
    assert !(TRUE_TEXT <= s) && !(FALSE_TEXT <= s) && !(NULL_TEXT <= s);
  }

  // ----- The text of a value -----

  lemma CanonicalStarts(v: Value)
    requires Plain(v)
    ensures StartsValue(Canonicalize(v))
  {
    if v.Number? {
      NumberUnits(v.token);
    }
  }

  function NormalItems(items: seq<Value>): (normals: seq<Value>)
    ensures |normals| == |items|
  {
    seq(|items|, i requires 0 <= i < |items| => Normal(items[i]))
  }

  function NormalMember(m: Member): Member {
    Member(m.key, Normal(m.value))
  }

  function NormalMembers(members: seq<Member>): (normals: seq<Member>)
    ensures |normals| == |members|
  {
    seq(|members|, i requires 0 <= i < |members| => NormalMember(members[i]))
  }

  lemma NormalParts(v: Value)
    ensures v.Array? ==> Normal(v) == Array(NormalItems(v.items))
    ensures v.Object? ==> Normal(v) == Object(NormalMembers(Kept(v.members)))
  {
    if v.Array? {
      assert Normal(v).items == NormalItems(v.items);
    } else if v.Object? {
      assert Normal(v).members == NormalMembers(Kept(v.members));
    }
  }

  lemma PlainKept(v: Value, i: nat)
    requires v.Object? && Plain(v) && i < |Kept(v.members)|
    ensures Plain(Kept(v.members)[i].value) && Kept(v.members)[i].value < v
  {
    assert Kept(v.members)[i] in v.members;
    var k :| 0 <= k < |v.members| && v.members[k] == Kept(v.members)[i];
  }

  /**
   * The main round trip: parsing canonical text, followed by anything that does not run on a number, gives the
   * normal form of the value and leaves what follows.
   */
  lemma {:induction false} ValueIsReadBack(s: Text, v: Value, rest: Text)
    requires Plain(v) && Delimited(rest) && s == Canonicalize(v) + rest
    ensures ParseValue(s) == Some((Normal(v), rest))
    decreases v
  {
    if v.Array? {
      ArrayIsReadBack(s, v, rest);
    } else if v.Object? {
      ObjectIsReadBack(s, v, rest);
    } else {
      ScalarIsReadBack(s, v, rest);
    }
  }

  lemma ScalarIsReadBack(s: Text, v: Value, rest: Text)
    requires Plain(v) && Delimited(rest) && s == Canonicalize(v) + rest && !v.Array? && !v.Object?
    ensures ParseValue(s) == Some((v, rest))
  {
    match v {
      case Null => LiteralIsReadBack(s, rest);
      case Bool(bit) => LiteralIsReadBack(s, rest);
      case Number(token) => NumberStep(s, token, rest);
      case String(text) => QuoteIsReadBack(s, text, rest);
    }
  }

  lemma QuoteIsReadBack(s: Text, text: Text, rest: Text)
    requires s == Quote(text) + rest
    ensures ParseValue(s) == Some((String(text), rest))
  {
    var q := (QuoteBody(text) + [QUOTE]) + rest;
    QuotedIsReadBack(q, text, rest);
    assert s == [QUOTE] + q;
    StringStep(s, q, text, rest);
  }

  lemma {:induction false} ArrayIsReadBack(s: Text, v: Value, rest: Text)
    requires v.Array? && Plain(v) && s == Canonicalize(v) + rest
    ensures ParseValue(s) == Some((Normal(v), rest))
    decreases v, 0
  {
    var end, items := [CLOSE_BRACKET] + rest, v.items;
    NormalParts(v);
    Bracketed(s, OPEN_BRACKET, CanonicalItems(v, items), CLOSE_BRACKET, rest);
    if items == [] {
      EmptyArray(s, rest);
      assert NormalItems(items) == [];
    } else {
      var u := CanonicalItems(v, items) + end;
      ItemsAreReadBack(u, v, items, end, rest);
      ItemsStart(v, items, u, end);
      SomeItems(s, u, NormalItems(items), rest);
    }
  }

  lemma ItemsStart(context: Value, items: seq<Value>, u: Text, end: Text)
    requires items != [] && forall i :: 0 <= i < |items| ==> items[i] < context && Plain(items[i])
    requires u == CanonicalItems(context, items) + end
    ensures StartsValue(u)
  {
    CanonicalStarts(items[0]);
  }

  lemma {:induction false} ItemsAreReadBack(s: Text, context: Value, items: seq<Value>, end: Text, rest: Text)
    requires items != [] && end == [CLOSE_BRACKET] + rest
    requires forall i :: 0 <= i < |items| ==> items[i] < context && Plain(items[i])
    requires s == CanonicalItems(context, items) + end
    ensures ParseItems(s) == Some((NormalItems(items), rest))
    decreases context, 0, |items|
  {
    if |items| == 1 {
      ValueIsReadBack(s, items[0], end);
      LastItem(s, Normal(items[0]), end, rest);
      assert NormalItems(items) == [Normal(items[0])];
    } else {
      var tail := CanonicalItems(context, items[1..]) + end;
      var between := [COMMA] + tail;
      FirstOfItems(s, context, items, end, between);
      ValueIsReadBack(s, items[0], between);
      ItemsAreReadBack(tail, context, items[1..], end, rest);
      MoreItems(s, Normal(items[0]), between, tail, NormalItems(items[1..]), rest);
      NormalItemsSplit(items);
    }
  }

  lemma NormalItemsSplit(items: seq<Value>)
    requires items != []
    ensures NormalItems(items) == [Normal(items[0])] + NormalItems(items[1..])
  {
  }

  lemma FirstOfItems(s: Text, context: Value, items: seq<Value>, end: Text, between: Text)
    requires |items| > 1 && forall i :: 0 <= i < |items| ==> items[i] < context
    requires s == CanonicalItems(context, items) + end
    requires between == [COMMA] + (CanonicalItems(context, items[1..]) + end)
    ensures s == Canonicalize(items[0]) + between
  {
  }

  lemma {:induction false} ObjectIsReadBack(s: Text, v: Value, rest: Text)
    requires v.Object? && Plain(v) && s == Canonicalize(v) + rest
    ensures ParseValue(s) == Some((Normal(v), rest))
    decreases v, 0
  {
    var end, kept := [CLOSE_BRACE] + rest, Kept(v.members);
    NormalParts(v);
    forall i | 0 <= i < |kept| ensures kept[i].value < v && Plain(kept[i].value) {
      PlainKept(v, i);
    }
    if kept == [] {
      EmptyObject(s, rest);
      assert NormalMembers(kept) == [];
    } else {
      KeptAscends(v.members);
      AscendingIsDistinct(kept);
      var u := CanonicalMembers(v, kept) + end;
      MembersAreReadBack(u, v, kept, end, rest);
      ObjectText(s, v, kept, rest, u);
      SomeMembers(s, u, NormalMembers(kept), rest);
    }
  }

  lemma ObjectText(s: Text, v: Value, kept: seq<Member>, rest: Text, u: Text)
    requires v.Object? && kept == Kept(v.members) && kept != [] && s == Canonicalize(v) + rest
    requires forall i :: 0 <= i < |kept| ==> kept[i].value < v
    requires u == CanonicalMembers(v, kept) + ([CLOSE_BRACE] + rest)
    ensures s == [OPEN_BRACE] + u && StartsValue(u)
  {
    var inner := CanonicalMembers(v, kept);
    MembersStartQuoted(v, kept);
    Bracketed(s, OPEN_BRACE, inner, CLOSE_BRACE, rest);
  }

  lemma MembersStartQuoted(context: Value, members: seq<Member>)
    requires members != [] && forall i :: 0 <= i < |members| ==> members[i].value < context
    ensures CanonicalMembers(context, members) != [] && CanonicalMembers(context, members)[0] == QUOTE
  {
    assert CanonicalMember(context, members[0])[0] == QUOTE;
  }

  lemma Bracketed(s: Text, start: Unit, inner: Text, close: Unit, rest: Text)
    requires s == ([start] + inner + [close]) + rest
    ensures s == [start] + (inner + ([close] + rest))
  {
  }

  lemma AscendingIsDistinct(members: seq<Member>)
    requires Ascending(members)
    ensures DistinctKeys(members)
  {
    forall i, j | 0 <= i < j < |members| ensures members[i].key != members[j].key {
      PrecedesIsTotal(members[i].key, members[j].key);
    }
  }

  lemma NewKeyGoesFirst(members: seq<Member>)
    requires members != [] && DistinctKeys(members)
    ensures NormalMembers(members) == PutFirst(NormalMember(members[0]), NormalMembers(members[1..]))
  {
    assert !HasKey(NormalMembers(members[1..]), members[0].key);
    assert NormalMembers(members) == [NormalMember(members[0])] + NormalMembers(members[1..]);
  }

  lemma {:induction false} MembersAreReadBack(s: Text, context: Value, members: seq<Member>, end: Text, rest: Text)
    requires members != [] && end == [CLOSE_BRACE] + rest && DistinctKeys(members)
    requires forall i :: 0 <= i < |members| ==> members[i].value < context && Plain(members[i].value)
    requires s == CanonicalMembers(context, members) + end
    ensures ParseMembers(s) == Some((NormalMembers(members), rest))
    decreases context, 0, |members|
  {
    if |members| == 1 {
      FirstMemberIsReadBack(s, context, members[0], end);
      assert end[1..] == rest && NormalMembers(members) == [NormalMember(members[0])];
    } else {
      var tail := CanonicalMembers(context, members[1..]) + end;
      var between := [COMMA] + tail;
      FirstOfMembers(s, context, members, end, between);
      FirstMemberIsReadBack(s, context, members[0], between);
      MembersAreReadBack(tail, context, members[1..], end, rest);
      MoreMembers(members, between, tail, rest);
    }
  }

  lemma MoreMembers(members: seq<Member>, between: Text, tail: Text, rest: Text)
    requires members != [] && DistinctKeys(members) && between == [COMMA] + tail
    requires ParseMembers(tail) == Some((NormalMembers(members[1..]), rest))
    ensures ParseMoreMembers(members[0].key, Normal(members[0].value), SkipSpace(between))
         == Some((NormalMembers(members), rest))
  {
    assert between[1..] == tail && SkipSpace(between) == between;
    NewKeyGoesFirst(members);
  }

  lemma FirstOfMembers(s: Text, context: Value, members: seq<Member>, end: Text, between: Text)
    requires |members| > 1 && forall i :: 0 <= i < |members| ==> members[i].value < context
    requires s == CanonicalMembers(context, members) + end
    requires between == [COMMA] + (CanonicalMembers(context, members[1..]) + end)
    ensures s == CanonicalMember(context, members[0]) + between
  {
  }

  lemma {:induction false} FirstMemberIsReadBack(s: Text, context: Value, m: Member, after: Text)
    requires m.value < context && Plain(m.value) && Delimited(after) && s == CanonicalMember(context, m) + after
    ensures ParseMembers(s) == ParseMoreMembers(m.key, Normal(m.value), SkipSpace(after))
    decreases context, 0, 0
  {
    var x := Canonicalize(m.value) + after;
    var between := [COLON] + x;
    var q := (QuoteBody(m.key) + [QUOTE]) + between;
    ValueIsReadBack(x, m.value, after);
    QuotedIsReadBack(q, m.key, between);
    MemberText(s, context, m, after, q);
    MemberStep(s, q, m.key, between, x, Normal(m.value), after);
  }

  lemma MemberText(s: Text, context: Value, m: Member, after: Text, q: Text)
    requires m.value < context && s == CanonicalMember(context, m) + after
    requires q == (QuoteBody(m.key) + [QUOTE]) + ([COLON] + (Canonicalize(m.value) + after))
    ensures s == [QUOTE] + q
  {
  }
}
