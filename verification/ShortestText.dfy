/**
 * What the text that is signed looks like, told apart from how it is printed: of all JSON texts for one value, whole in
 * their surrogates, the canonical one is the shortest, and the only one of its length but for the case of escapes.
 */
module ShortestText {
  import opened CanonicalReading
  import opened JsonStrings
  import opened JsonText
  import opened Receipt
  import opened ReceiptTheorems
  import opened Wrappers

  /** Every high surrogate is followed by a low one and every low one preceded by a high one: well-formed UTF-16. */
  predicate Whole(t: Text) {
    (forall i :: 0 <= i < |t| && IsHigh(t[i]) ==> i + 1 < |t| && IsLow(t[i + 1]))
    && forall i :: 0 <= i < |t| && IsLow(t[i]) ==> i > 0 && IsHigh(t[i - 1])
  }

  /** The same text, but for capital hexadecimal digits where the first has small ones. */
  predicate Alike(c: Text, t: Text) {
    |c| == |t| && forall i :: 0 <= i < |c| ==> AlikeUnit(c[i], t[i])
  }

  predicate AlikeUnit(c: Unit, t: Unit) {
    c == t || (65 <= t <= 70 && c as int == t as int + 32)
  }

  /** In front of `rest`, `t` has at least as much as `c`, and if no more then the same; the latter only if `exact`. */
  ghost predicate Within(c: Text, exact: bool, t: Text, rest: Text) {
    |c| + |rest| <= |t| && t[|t| - |rest|..] == rest && Whole(rest)
    && (exact && |c| + |rest| == |t| ==> Alike(c, t[..|c|]))
  }

  // ----- Putting pieces together -----

  lemma Rest(t: Text, k: nat)
    requires 0 < k <= |t| && Whole(t) && !IsHigh(t[k - 1])
    ensures Whole(t[k..])
  {
    var rest := t[k..];
    forall i | 0 <= i < |rest|
      ensures (IsHigh(rest[i]) ==> i + 1 < |rest| && IsLow(rest[i + 1]))
      ensures (IsLow(rest[i]) ==> i > 0 && IsHigh(rest[i - 1]))
    {
      assert rest[i] == t[k + i];
      assert IsHigh(t[k + i]) ==> rest[i + 1] == t[k + i + 1];
    }
  }

  lemma Then(a: Text, b: Text, c: Text, exactA: bool, exactB: bool, t: Text, u: Text, rest: Text)
    requires Within(a, exactA, t, u) && Within(b, exactB, u, rest) && c == a + b
    ensures Within(c, exactA && exactB, t, rest)
  {
    assert t[|t| - |rest|..] == u[|u| - |rest|..];
    if exactA && exactB && |c| + |rest| == |t| {
      forall i | 0 <= i < |c| ensures AlikeUnit(c[i], t[..|c|][i]) {
        if i < |a| {
          assert AlikeUnit(a[i], t[..|a|][i]);
        } else {
          assert AlikeUnit(b[i - |a|], u[..|b|][i - |a|]);
          assert u[i - |a|] == t[|t| - |u|..][i - |a|];
        }
      }
    }
  }

  lemma Shorter(a: Text, b: Text, exact: bool, other: bool, t: Text, rest: Text)
    requires Within(a, exact, t, rest) && |b| < |a|
    ensures Within(b, other, t, rest)
  {
  }

  lemma OneUnit(u: Unit, t: Text)
    requires t != [] && t[0] == u && Whole(t) && !IsHigh(u)
    ensures Within([u], true, t, t[1..])
  {
    Rest(t, 1);
  }

  lemma {:induction false} SpaceIsSkipped(t: Text)
    requires Whole(t)
    ensures Within([], true, t, SkipSpace(t))
  {
    if t != [] && IsSpace(t[0]) {
      Rest(t, 1);
      SpaceIsSkipped(t[1..]);
      assert t[|t| - |SkipSpace(t)|..] == t[1..][|t| - 1 - |SkipSpace(t)|..];
    }
  }

  // ----- Strings -----

  lemma DigitIsAlike(x: Unit, d: nat)
    requires HexValue(x) == Some(d)
    ensures AlikeUnit(HexDigit(d), x)
  {
  }

  lemma DigitsOf(a: nat, b: nat, c: nat, d: nat, n: nat)
    requires a < 16 && b < 16 && c < 16 && d < 16 && n == a * 4096 + b * 256 + c * 16 + d
    ensures n < 65536 && n / 4096 == a && n / 256 % 16 == b && n / 16 % 16 == c && n % 16 == d
  {
    var k, m := a * 16 + b, a * 256 + b * 16 + c;
    assert n == m * 16 + d && m == k * 16 + c;
    assert n / 16 == m && n % 16 == d && m / 16 == k && m % 16 == c;
    assert n / 16 / 16 == n / 256 && n / 256 / 16 == n / 4096;
  }

  lemma EscapeIsAlike(u: Unit, t: Text)
    requires |t| >= 6 && t[0] == BACKSLASH && t[1] == LOWER_U && FourHex(t[2..]) == Some(u)
    ensures Alike(UnicodeEscape(u), t[..6])
  {
    var a, b, c, d := HexValue(t[2]).value, HexValue(t[3]).value, HexValue(t[4]).value, HexValue(t[5]).value;
    DigitsOf(a, b, c, d, u as nat);
    DigitIsAlike(t[2], a);
    DigitIsAlike(t[3], b);
    DigitIsAlike(t[4], c);
    DigitIsAlike(t[5], d);
  }

  lemma HexIsNotHigh(t: Text)
    requires |t| >= 4 && FourHex(t).Some?
    ensures !IsHigh(t[3])
  {
  }

  lemma UnitIsShort(t: Text, u: Unit, rest: Text)
    requires Whole(t) && t != [] && !IsHigh(t[0]) && ParseUnit(t) == Some((u, rest))
    ensures Within(QuoteUnit(u), true, t, rest)
  {
    assert !IsLow(t[0]);
    if t[0] != BACKSLASH {
      Rest(t, 1);
    } else if |t| >= 6 && t[1] == LOWER_U {
      HexIsNotHigh(t[2..]);
      Rest(t, 6);
      EscapeIsAlike(u, t);
    } else {
      Rest(t, 2);
    }
  }

  /** However a string is written, it takes no less than its quoted form. */
  lemma {:induction false} StringIsShort(t: Text, s: Text, rest: Text)
    requires Whole(t) && ParseString(t) == Some((s, rest))
    ensures Within(QuoteBody(s) + [QUOTE], true, t, rest)
    decreases |t|
  {
    if t[0] == QUOTE {
      OneUnit(QUOTE, t);
      assert QuoteBody(s) + [QUOTE] == [QUOTE];
    } else if IsHigh(t[0]) {
      PairIsShort(t, s, rest);
    } else {
      var (u, mid) := ParseUnit(t).value;
      var tail := s[1..];
      UnitIsShort(t, u, mid);
      StringIsShort(mid, tail, rest);
      UnitBefore(t, u, mid, s, tail, rest);
    }
  }

  lemma PairIsRead(t: Text, s: Text, rest: Text)
    requires |t| > 1 && IsHigh(t[0]) && IsLow(t[1]) && ParseString(t) == Some((s, rest))
    ensures |s| >= 2 && s[0] == t[0] && s[1] == t[1] && ParseString(t[2..]) == Some((s[2..], rest))
  {
    var u := t[1..];
    assert ParseUnit(t) == Some((t[0], u)) && ParseUnit(u) == Some((u[0], u[1..])) && u[1..] == t[2..];
    assert ParseString(u) == Some((s[1..], rest));
    assert s[1..][1..] == s[2..];
  }

  lemma {:induction false} PairIsShort(t: Text, s: Text, rest: Text)
    requires Whole(t) && t != [] && IsHigh(t[0]) && ParseString(t) == Some((s, rest))
    ensures Within(QuoteBody(s) + [QUOTE], true, t, rest)
    decreases |t|, 0
  {
    assert IsLow(t[1]);
    var tail := s[2..];
    PairIsRead(t, s, rest);
    Rest(t, 2);
    StringIsShort(t[2..], tail, rest);
    PairBefore(t, t[..2], t[2..], s, tail, rest);
  }

  lemma PairBefore(t: Text, pair: Text, u: Text, s: Text, tail: Text, rest: Text)
    requires |t| >= 2 && pair == t[..2] && u == t[2..] && Whole(u) && IsHigh(pair[0]) && IsLow(pair[1])
    requires s == pair + tail && Within(QuoteBody(tail) + [QUOTE], true, u, rest)
    ensures Within(QuoteBody(s) + [QUOTE], true, t, rest)
  {
    assert s[..2] == pair && s[2..] == tail;
    assert QuoteBody(s) + [QUOTE] == pair + (QuoteBody(tail) + [QUOTE]);
    Then(pair, QuoteBody(tail) + [QUOTE], QuoteBody(s) + [QUOTE], true, true, t, u, rest);
  }

  lemma UnitBefore(t: Text, u: Unit, mid: Text, s: Text, tail: Text, rest: Text)
    requires s == [u] + tail && Within(QuoteUnit(u), true, t, mid)
    requires Within(QuoteBody(tail) + [QUOTE], true, mid, rest)
    ensures Within(QuoteBody(s) + [QUOTE], true, t, rest)
  {
    var whole := QuoteUnit(u) + (QuoteBody(tail) + [QUOTE]);
    Then(QuoteUnit(u), QuoteBody(tail) + [QUOTE], whole, true, true, t, mid, rest);
    if Span(s) == 2 {
      assert s[2..] == tail[1..] && |QuoteUnit(tail[0])| == 6;
      Shorter(whole, QuoteBody(s) + [QUOTE], true, true, t, rest);
    } else {
      assert s[1..] == tail;
      assert QuoteBody(s) + [QUOTE] == whole;
    }
  }

  // ----- The printed text, piece by piece -----

  function ItemsText(items: seq<Value>): Text {
    CanonicalItems(Array(items), items)
  }

  function MembersText(members: seq<Member>): Text {
    CanonicalMembers(Object(members), members)
  }

  lemma {:induction false} ItemsInContext(c: Value, d: Value, items: seq<Value>)
    requires forall i :: 0 <= i < |items| ==> items[i] < c && items[i] < d
    ensures CanonicalItems(c, items) == CanonicalItems(d, items)
    decreases |items|
  {
    if |items| > 1 {
      ItemsInContext(c, d, items[1..]);
    }
  }

  lemma {:induction false} MembersInContext(c: Value, d: Value, members: seq<Member>)
    requires forall i :: 0 <= i < |members| ==> members[i].value < c && members[i].value < d
    ensures CanonicalMembers(c, members) == CanonicalMembers(d, members)
    decreases |members|
  {
    if members != [] {
      assert CanonicalMember(c, members[0]) == CanonicalMember(d, members[0]);
      MembersInContext(c, d, members[1..]);
    }
  }

  function Head(m: Member): Text {
    Quote(m.key) + [COLON] + Canonicalize(m.value)
  }

  lemma ItemsTextIs(item: Value, items: seq<Value>)
    ensures ItemsText([item]) == Canonicalize(item)
    ensures items != [] ==> ItemsText([item] + items) == Canonicalize(item) + [COMMA] + ItemsText(items)
  {
    if items != [] {
      var all := [item] + items;
      assert all[1..] == items;
      forall i | 0 <= i < |items| ensures items[i] < Array(all) {
        assert items[i] == all[i + 1];
      }
      ItemsInContext(Array(all), Array(items), items);
    }
  }

  lemma MembersTextIs(m: Member, members: seq<Member>)
    ensures MembersText([m]) == Head(m)
    ensures members != [] ==> MembersText([m] + members) == Head(m) + [COMMA] + MembersText(members)
  {
    assert CanonicalMember(Object([m]), [m][0]) == Head(m);
    if members != [] {
      var all := [m] + members;
      assert all[1..] == members;
      forall i | 0 <= i < |members| ensures members[i].value < Object(all) {
        assert members[i] == all[i + 1];
      }
      assert CanonicalMember(Object(all), all[0]) == Head(m);
      MembersInContext(Object(all), Object(members), members);
    }
  }

  // ----- Its length does not depend on the order of the members -----

  /** A member takes its text and the comma or the brace that follows. */
  function Weight(members: seq<Member>): nat {
    if members == [] then 0 else |Head(members[0])| + 1 + Weight(members[1..])
  }

  lemma {:induction false} MembersTextWeighs(members: seq<Member>)
    requires members != []
    ensures |MembersText(members)| + 1 == Weight(members)
  {
    var m, more := members[0], members[1..];
    assert members == [m] + more;
    MembersTextIs(m, more);
    if more != [] {
      MembersTextWeighs(more);
    } else {
      assert members == [m];
    }
  }

  lemma {:induction false} InsertWeighs(sorted: seq<Member>, m: Member)
    ensures Weight(InsertByKey(sorted, m)) == |Head(m)| + 1 + Weight(sorted)
  {
    if sorted != [] && !Precedes(m.key, sorted[0].key) {
      InsertWeighs(sorted[1..], m);
      assert InsertByKey(sorted, m)[1..] == InsertByKey(sorted[1..], m);
    } else {
      assert ([m] + sorted)[1..] == sorted;
    }
  }

  lemma {:induction false} SortWeighs(members: seq<Member>)
    ensures Weight(SortByKey(members)) == Weight(members)
  {
    if members != [] {
      SortWeighs(members[1..]);
      InsertWeighs(SortByKey(members[1..]), members[0]);
    }
  }

  predicate AllDefined(members: seq<Member>) {
    forall i :: 0 <= i < |members| ==> members[i].value != Undefined
  }

  lemma ObjectText(members: seq<Member>)
    requires AllDefined(members)
    ensures var text := Canonicalize(Object(members));
      |text| == |[OPEN_BRACE] + MembersText(members) + [CLOSE_BRACE]|
      && (Ascending(members) ==> text == [OPEN_BRACE] + MembersText(members) + [CLOSE_BRACE])
  {
    DefinedKeepsDefined(members);
    var v, kept := Object(members), SortByKey(members);
    assert Kept(members) == kept;
    SortMembers(members);
    SortWeighs(members);
    if members != [] {
      assert members[0] in kept;
      forall i | 0 <= i < |kept| ensures kept[i].value < v && kept[i].value < Object(kept) {
        assert kept[i] in members;
      }
      MembersInContext(v, Object(kept), kept);
      MembersTextWeighs(members);
      MembersTextWeighs(kept);
    } else {
      assert kept == [];
    }
    if Ascending(members) {
      SortKeepsAscending(members);
    }
  }

  lemma {:induction false} WithoutWeighs(members: seq<Member>, key: Text, i: nat)
    requires i < |members| && members[i].key == key
    ensures Weight(Without(members, key)) + |Head(members[i])| + 1 <= Weight(members)
  {
    WithoutIsNoMore(members[1..], key);
    if i > 0 {
      WithoutWeighs(members[1..], key, i - 1);
    }
    WithoutStep(members, key);
  }

  lemma WithoutStep(members: seq<Member>, key: Text)
    requires members != []
    ensures Weight(Without(members, key))
         == (if members[0].key == key then 0 else |Head(members[0])| + 1) + Weight(Without(members[1..], key))
  {
    var rest := Without(members[1..], key);
    assert ([members[0]] + rest)[1..] == rest;
    assert [] + rest == rest;
  }

  lemma {:induction false} WithoutIsNoMore(members: seq<Member>, key: Text)
    ensures Weight(Without(members, key)) <= Weight(members)
  {
    if members != [] {
      WithoutIsNoMore(members[1..], key);
      WithoutStep(members, key);
    }
  }

  lemma {:induction false} LastValueIsOne(members: seq<Member>, key: Text) returns (i: nat)
    requires HasKey(members, key)
    ensures i < |members| && members[i] == Member(key, LastValue(members, key))
  {
    i := |members| - 1;
    if members[i].key != key {
      i := LastValueIsOne(members[..i], key);
    }
  }

  /** A key that comes again makes the object no larger. */
  lemma RepeatedKeyWeighs(m: Member, members: seq<Member>)
    requires HasKey(members, m.key) && AllDefined(members)
    ensures Weight(PutFirst(m, members)) <= Weight(members) && AllDefined(PutFirst(m, members))
    ensures PutFirst(m, members) != []
  {
    var i := LastValueIsOne(members, m.key);
    WithoutWeighs(members, m.key, i);
    var first, rest := Member(m.key, LastValue(members, m.key)), Without(members, m.key);
    assert ([first] + rest)[1..] == rest;
    WithoutKeeps(members, m.key);
  }

  lemma {:induction false} WithoutKeeps(members: seq<Member>, key: Text)
    requires AllDefined(members)
    ensures AllDefined(Without(members, key))
  {
    if members != [] {
      WithoutKeeps(members[1..], key);
    }
  }

  // ----- Values -----

  /** Every object in it has its members in key order and none of them undefined, as in a normal form. */
  predicate Ordered(v: Value) {
    match v
    case Undefined => false
    case Array(items) => forall i :: 0 <= i < |items| ==> Ordered(items[i])
    case Object(members) => Ascending(members) && forall i :: 0 <= i < |members| ==> Ordered(members[i].value)
    case _ => true
  }

  predicate OrderedItems(items: seq<Value>) {
    forall i :: 0 <= i < |items| ==> Ordered(items[i])
  }

  predicate OrderedMembers(members: seq<Member>) {
    Ascending(members) && forall i :: 0 <= i < |members| ==> Ordered(members[i].value)
  }

  lemma SkippedIsSkipped(t: Text)
    ensures SkipSpace(SkipSpace(t)) == SkipSpace(t)
  {
  }

  /** However a value is written, it takes no less than its canonical text. */
  lemma {:induction false} ValueIsShort(t: Text, v: Value, rest: Text)
    requires Whole(t) && ParseValue(t) == Some((v, rest))
    ensures v != Undefined && Within(Canonicalize(v), Ordered(v), t, rest)
    decreases |t|, 1
  {
    var u := SkipSpace(t);
    SpaceIsSkipped(t);
    SkippedIsSkipped(t);
    if u[0] == OPEN_BRACKET {
      ArrayIsShort(u, v, rest);
    } else if u[0] == OPEN_BRACE {
      ObjectIsShort(u, v, rest);
    } else {
      ScalarIsShort(u, v, rest);
    }
    Then([], Canonicalize(v), Canonicalize(v), true, Ordered(v), t, u, rest);
  }

  lemma ScalarIsShort(u: Text, v: Value, rest: Text)
    requires Whole(u) && u != [] && SkipSpace(u) == u && ParseValue(u) == Some((v, rest))
    requires u[0] != OPEN_BRACKET && u[0] != OPEN_BRACE
    ensures v != Undefined && Within(Canonicalize(v), true, u, rest)
  {
    if u[0] == QUOTE {
      QuotedIsShort(u, v.text, rest);
    } else if TRUE_TEXT <= u {
      Rest(u, 4);
    } else if FALSE_TEXT <= u {
      Rest(u, 5);
    } else if NULL_TEXT <= u {
      Rest(u, 4);
    } else {
      var n := NumberRun(u);
      NumberRunIsNumber(u);
      Rest(u, n);
    }
  }

  lemma {:induction false} NumberRunIsNumber(u: Text)
    ensures forall i :: 0 <= i < NumberRun(u) ==> IsNumberUnit(u[i])
  {
    if u != [] && IsNumberUnit(u[0]) {
      NumberRunIsNumber(u[1..]);
      forall i | 0 <= i < NumberRun(u) ensures IsNumberUnit(u[i]) {
        assert i > 0 ==> u[i] == u[1..][i - 1];
      }
    }
  }

  lemma QuotedIsShort(u: Text, s: Text, rest: Text)
    requires Whole(u) && u != [] && u[0] == QUOTE && ParseString(u[1..]) == Some((s, rest))
    ensures Within(Quote(s), true, u, rest)
  {
    OneUnit(QUOTE, u);
    StringIsShort(u[1..], s, rest);
    assert Quote(s) == [QUOTE] + (QuoteBody(s) + [QUOTE]);
    Then([QUOTE], QuoteBody(s) + [QUOTE], Quote(s), true, true, u, u[1..], rest);
  }

  /** A single unit after white space. */
  lemma MarkIsShort(mark: Unit, t: Text, u: Text)
    requires Whole(t) && u == SkipSpace(t) && u != [] && u[0] == mark && !IsHigh(mark)
    ensures Within([mark], true, t, u[1..])
  {
    SpaceIsSkipped(t);
    OneUnit(mark, u);
    Then([], [mark], [mark], true, true, t, u, u[1..]);
  }

  lemma Opened(open: Unit, tail: Text, exact: bool, u: Text, after: Text, inner: Text, rest: Text)
    requires Within([open], true, u, after) && Within([], true, after, inner) && Within(tail, exact, inner, rest)
    ensures Within([open] + tail, exact, u, rest)
  {
    Then([], tail, tail, true, exact, after, inner, rest);
    Then([open], tail, [open] + tail, true, exact, u, after, rest);
  }

  lemma ArrayTextIs(items: seq<Value>)
    ensures Canonicalize(Array(items)) == [OPEN_BRACKET] + (ItemsText(items) + [CLOSE_BRACKET])
  {
  }

  lemma {:induction false} ArrayIsShort(u: Text, v: Value, rest: Text)
    requires Whole(u) && u != [] && u[0] == OPEN_BRACKET && ParseValue(u) == Some((v, rest))
    ensures v != Undefined && Within(Canonicalize(v), Ordered(v), u, rest)
    decreases |u|, 0
  {
    var inner := SkipSpace(u[1..]);
    OneUnit(OPEN_BRACKET, u);
    if inner[0] == CLOSE_BRACKET {
      MarkIsShort(CLOSE_BRACKET, u[1..], inner);
      Then([OPEN_BRACKET], [CLOSE_BRACKET], Canonicalize(v), true, true, u, u[1..], rest);
    } else {
      SpaceIsSkipped(u[1..]);
      ItemsAreShort(inner, v.items, rest);
      FilledArrayIsShort(u, u[1..], inner, v.items, rest);
    }
  }

  lemma FilledArrayIsShort(u: Text, after: Text, inner: Text, items: seq<Value>, rest: Text)
    requires Within([OPEN_BRACKET], true, u, after) && Within([], true, after, inner)
    requires Within(ItemsText(items) + [CLOSE_BRACKET], OrderedItems(items), inner, rest)
    ensures Within(Canonicalize(Array(items)), Ordered(Array(items)), u, rest)
  {
    ArrayTextIs(items);
    Opened(OPEN_BRACKET, ItemsText(items) + [CLOSE_BRACKET], OrderedItems(items), u, after, inner, rest);
  }

  lemma {:induction false} ItemsAreShort(t: Text, items: seq<Value>, rest: Text)
    requires Whole(t) && ParseItems(t) == Some((items, rest))
    ensures items != [] && Within(ItemsText(items) + [CLOSE_BRACKET], OrderedItems(items), t, rest)
    decreases |t|, 2
  {
    var (item, after) := ParseValue(t).value;
    var u := SkipSpace(after);
    ValueIsShort(t, item, after);
    if u[0] == CLOSE_BRACKET {
      MarkIsShort(CLOSE_BRACKET, after, u);
      ItemsTextIs(item, []);
      Then(Canonicalize(item), [CLOSE_BRACKET], ItemsText(items) + [CLOSE_BRACKET], Ordered(item), true, t, after,
           rest);
    } else {
      MarkIsShort(COMMA, after, u);
      var more := ParseItems(u[1..]).value.0;
      ItemsAreShort(u[1..], more, rest);
      ItemsFollow(t, item, after, u[1..], more, rest);
    }
  }

  lemma ItemsFollow(t: Text, item: Value, after: Text, u: Text, more: seq<Value>, rest: Text)
    requires more != [] && Within(Canonicalize(item), Ordered(item), t, after) && Within([COMMA], true, after, u)
    requires Within(ItemsText(more) + [CLOSE_BRACKET], OrderedItems(more), u, rest)
    ensures Within(ItemsText([item] + more) + [CLOSE_BRACKET], OrderedItems([item] + more), t, rest)
  {
    var tail, first := ItemsText(more) + [CLOSE_BRACKET], Canonicalize(item);
    CommaFollows(first, tail, Ordered(item), OrderedItems(more), t, after, u, rest);
    ItemsTextEnds(item, more, first + ([COMMA] + tail));
    ItemsAreOrdered(item, more);
  }

  lemma ItemsTextEnds(item: Value, more: seq<Value>, whole: Text)
    requires more != [] && whole == Canonicalize(item) + ([COMMA] + (ItemsText(more) + [CLOSE_BRACKET]))
    ensures ItemsText([item] + more) + [CLOSE_BRACKET] == whole
  {
    ItemsTextIs(item, more);
  }

  lemma CommaFollows(first: Text, tail: Text, exact: bool, exactTail: bool, t: Text, after: Text, u: Text, rest: Text)
    requires Within(first, exact, t, after) && Within([COMMA], true, after, u) && Within(tail, exactTail, u, rest)
    ensures Within(first + ([COMMA] + tail), exact && exactTail, t, rest)
  {
    Then([COMMA], tail, [COMMA] + tail, true, exactTail, after, u, rest);
    Then(first, [COMMA] + tail, first + ([COMMA] + tail), exact, exactTail, t, after, rest);
  }

  lemma ItemsAreOrdered(item: Value, more: seq<Value>)
    ensures OrderedItems([item] + more) ==> Ordered(item) && OrderedItems(more)
  {
    var all := [item] + more;
    if OrderedItems(all) {
      assert all[0] == item;
      forall i | 0 <= i < |more| ensures Ordered(more[i]) {
        assert more[i] == all[i + 1];
      }
    }
  }

  lemma {:induction false} ObjectIsShort(u: Text, v: Value, rest: Text)
    requires Whole(u) && u != [] && u[0] == OPEN_BRACE && ParseValue(u) == Some((v, rest))
    ensures v != Undefined && Within(Canonicalize(v), Ordered(v), u, rest)
    decreases |u|, 0
  {
    var inner := SkipSpace(u[1..]);
    OneUnit(OPEN_BRACE, u);
    if inner[0] == CLOSE_BRACE {
      MarkIsShort(CLOSE_BRACE, u[1..], inner);
      Then([OPEN_BRACE], [CLOSE_BRACE], Canonicalize(v), true, true, u, u[1..], rest);
    } else {
      var tail := MembersText(v.members) + [CLOSE_BRACE];
      SpaceIsSkipped(u[1..]);
      MembersAreShort(inner, v.members, rest);
      Opened(OPEN_BRACE, tail, OrderedMembers(v.members), u, u[1..], inner, rest);
      ObjectTextIsShort(u, v.members, rest);
    }
  }

  lemma ObjectTextIsShort(u: Text, members: seq<Member>, rest: Text)
    requires AllDefined(members)
    requires Within([OPEN_BRACE] + (MembersText(members) + [CLOSE_BRACE]), OrderedMembers(members), u, rest)
    ensures Within(Canonicalize(Object(members)), OrderedMembers(members), u, rest)
  {
    var text := [OPEN_BRACE] + MembersText(members) + [CLOSE_BRACE];
    assert text == [OPEN_BRACE] + (MembersText(members) + [CLOSE_BRACE]);
    ObjectText(members);
  }

  lemma {:induction false} MembersAreShort(t: Text, members: seq<Member>, rest: Text)
    requires Whole(t) && ParseMembers(t) == Some((members, rest))
    ensures members != [] && AllDefined(members)
    ensures Within(MembersText(members) + [CLOSE_BRACE], OrderedMembers(members), t, rest)
    decreases |t|, 3
  {
    var u := SkipSpace(t);
    var (key, r1) := ParseString(u[1..]).value;
    var r2 := SkipSpace(r1);
    var (value, r3) := ParseValue(r2[1..]).value;
    SpaceIsSkipped(t);
    QuotedIsShort(u, key, r1);
    MarkIsShort(COLON, r1, r2);
    ValueIsShort(r2[1..], value, r3);
    SpaceIsSkipped(r3);
    var m := Member(key, value);
    HeadIsShort(t, u, r1, r2[1..], r3, SkipSpace(r3), m);
    MoreMembersAreShort(t, m, SkipSpace(r3), members, rest);
  }

  lemma HeadIsShort(t: Text, u: Text, r1: Text, r2: Text, r3: Text, r4: Text, m: Member)
    requires Within([], true, t, u) && Within(Quote(m.key), true, u, r1) && Within([COLON], true, r1, r2)
    requires Within(Canonicalize(m.value), Ordered(m.value), r2, r3) && Within([], true, r3, r4)
    ensures Within(Head(m), Ordered(m.value), t, r4)
  {
    var quoted, colon, value := Quote(m.key), Quote(m.key) + [COLON], Canonicalize(m.value);
    Then([], quoted, quoted, true, true, t, u, r1);
    Then(quoted, [COLON], colon, true, true, t, r1, r2);
    Then(colon, value, Head(m), true, Ordered(m.value), t, r2, r3);
    Then(Head(m), [], Head(m), Ordered(m.value), true, t, r3, r4);
  }

  lemma {:induction false} MoreMembersAreShort(t: Text, m: Member, u: Text, members: seq<Member>, rest: Text)
    requires |u| < |t| && m.value != Undefined && Within(Head(m), Ordered(m.value), t, u)
    requires ParseMoreMembers(m.key, m.value, u) == Some((members, rest))
    ensures members != [] && AllDefined(members)
    ensures Within(MembersText(members) + [CLOSE_BRACE], OrderedMembers(members), t, rest)
    decreases |t|, 2
  {
    if u[0] == CLOSE_BRACE {
      OneUnit(CLOSE_BRACE, u);
      MembersTextIs(m, []);
      Then(Head(m), [CLOSE_BRACE], MembersText(members) + [CLOSE_BRACE], Ordered(m.value), true, t, u, rest);
    } else {
      var more := ParseMembers(u[1..]).value.0;
      OneUnit(COMMA, u);
      MembersAreShort(u[1..], more, rest);
      MembersFollow(t, m, u, u[1..], more, rest);
    }
  }

  lemma MembersFollow(t: Text, m: Member, u: Text, r: Text, more: seq<Member>, rest: Text)
    requires more != [] && AllDefined(more) && m.value != Undefined
    requires Within(Head(m), Ordered(m.value), t, u) && Within([COMMA], true, u, r)
    requires Within(MembersText(more) + [CLOSE_BRACE], OrderedMembers(more), r, rest)
    ensures var members := PutFirst(m, more);
      members != [] && AllDefined(members)
      && Within(MembersText(members) + [CLOSE_BRACE], OrderedMembers(members), t, rest)
  {
    var tail := MembersText(more) + [CLOSE_BRACE];
    var whole := Head(m) + ([COMMA] + tail);
    var exact := Ordered(m.value) && OrderedMembers(more);
    CommaFollows(Head(m), tail, Ordered(m.value), OrderedMembers(more), t, u, r, rest);
    if HasKey(more, m.key) {
      var members := PutFirst(m, more);
      RepeatedKeyWeighs(m, more);
      MembersTextWeighs(more);
      MembersTextWeighs(members);
      Shorter(whole, MembersText(members) + [CLOSE_BRACE], exact, OrderedMembers(members), t, rest);
    } else {
      NewMemberFollows(t, m, more, whole, rest);
    }
  }

  lemma NewMemberFollows(t: Text, m: Member, more: seq<Member>, whole: Text, rest: Text)
    requires more != [] && AllDefined(more) && m.value != Undefined
    requires whole == Head(m) + ([COMMA] + (MembersText(more) + [CLOSE_BRACE]))
    requires Within(whole, Ordered(m.value) && OrderedMembers(more), t, rest)
    ensures AllDefined([m] + more)
    ensures Within(MembersText([m] + more) + [CLOSE_BRACE], OrderedMembers([m] + more), t, rest)
  {
    MembersTextIs(m, more);
    assert MembersText([m] + more) + [CLOSE_BRACE] == whole;
    if OrderedMembers([m] + more) {
      TailIsOrdered(m, more);
    }
  }

  lemma TailIsOrdered(m: Member, more: seq<Member>)
    requires OrderedMembers([m] + more)
    ensures Ordered(m.value) && OrderedMembers(more)
  {
    var all := [m] + more;
    assert all[0] == m && Ordered(all[0].value);
    forall i | 0 <= i < |more| ensures Ordered(more[i].value) {
      assert more[i] == all[i + 1];
    }
    forall i, j | 0 <= i < j < |more| ensures Precedes(more[i].key, more[j].key) {
      assert more[i] == all[i + 1] && more[j] == all[j + 1];
    }
  }

  // ----- The canonical text is whole -----

  lemma WholeParts(a: Text, b: Text)
    requires Whole(a) && Whole(b)
    ensures Whole(a + b)
  {
    var t := a + b;
    forall i | 0 <= i < |t| && IsHigh(t[i]) ensures i + 1 < |t| && IsLow(t[i + 1]) {
      if i < |a| {
        assert IsHigh(a[i]) && a[i + 1] == t[i + 1];
      } else {
        assert IsHigh(b[i - |a|]) && b[i - |a| + 1] == t[i + 1];
      }
    }
    forall i | 0 <= i < |t| && IsLow(t[i]) ensures i > 0 && IsHigh(t[i - 1]) {
      if i < |a| {
        assert IsLow(a[i]) && a[i - 1] == t[i - 1];
      } else {
        assert IsLow(b[i - |a|]) && b[i - |a| - 1] == t[i - 1];
      }
    }
  }

  predicate NoSurrogates(t: Text) {
    forall i :: 0 <= i < |t| ==> !IsHigh(t[i]) && !IsLow(t[i])
  }

  lemma {:induction false} QuoteBodyIsWhole(s: Text)
    ensures Whole(QuoteBody(s))
  {
    if s != [] {
      if Span(s) == 2 {
        QuoteBodyIsWhole(s[2..]);
        WholeParts(s[..2], QuoteBody(s[2..]));
      } else {
        QuoteBodyIsWhole(s[1..]);
        assert NoSurrogates(QuoteUnit(s[0]));
        WholeParts(QuoteUnit(s[0]), QuoteBody(s[1..]));
      }
    }
  }

  lemma QuoteIsWhole(s: Text)
    ensures Whole(Quote(s))
  {
    QuoteBodyIsWhole(s);
    WholeParts([QUOTE], QuoteBody(s));
    WholeParts([QUOTE] + QuoteBody(s), [QUOTE]);
  }

  lemma {:induction false} CanonicalIsWhole(v: Value)
    requires Plain(v)
    ensures Whole(Canonicalize(v))
    decreases v, 1
  {
    if v.Array? {
      ItemsAreWhole(v, v.items);
      BracketsAreWhole(OPEN_BRACKET, CanonicalItems(v, v.items), CLOSE_BRACKET);
    } else if v.Object? {
      ObjectIsWhole(v);
    } else if v.String? {
      QuoteIsWhole(v.text);
    } else {
      ScalarHasNoSurrogates(v);
    }
  }

  lemma ScalarHasNoSurrogates(v: Value)
    requires Plain(v) && (v.Null? || v.Bool? || v.Number?)
    ensures NoSurrogates(Canonicalize(v))
  {
    if v.Number? {
      NumberUnits(v.token);
    }
  }

  lemma {:induction false} ObjectIsWhole(v: Value)
    requires Plain(v) && v.Object?
    ensures Whole(Canonicalize(v))
    decreases v, 0
  {
    var kept := Kept(v.members);
    forall i | 0 <= i < |kept| ensures Plain(kept[i].value) && kept[i].value < v {
      PlainKept(v, i);
    }
    MembersAreWhole(v, kept);
    BracketsAreWhole(OPEN_BRACE, CanonicalMembers(v, kept), CLOSE_BRACE);
  }

  lemma BracketsAreWhole(open: Unit, inner: Text, close: Unit)
    requires Whole(inner) && NoSurrogates([open]) && NoSurrogates([close])
    ensures Whole([open] + inner + [close])
  {
    WholeParts([open], inner);
    WholeParts([open] + inner, [close]);
  }

  lemma {:induction false} ItemsAreWhole(context: Value, items: seq<Value>)
    requires forall i :: 0 <= i < |items| ==> items[i] < context && Plain(items[i])
    ensures Whole(CanonicalItems(context, items))
    decreases context, 0, |items|
  {
    if items != [] {
      CanonicalIsWhole(items[0]);
      ItemsAreWhole(context, items[1..]);
      WholeParts(Canonicalize(items[0]), [COMMA]);
      WholeParts(Canonicalize(items[0]) + [COMMA], CanonicalItems(context, items[1..]));
    }
  }

  lemma {:induction false} MembersAreWhole(context: Value, members: seq<Member>)
    requires forall i :: 0 <= i < |members| ==> members[i].value < context && Plain(members[i].value)
    ensures Whole(CanonicalMembers(context, members))
    decreases context, 0, |members|
  {
    if members != [] {
      var head := CanonicalMember(context, members[0]);
      QuoteIsWhole(members[0].key);
      CanonicalIsWhole(members[0].value);
      WholeParts(Quote(members[0].key), [COLON]);
      WholeParts(Quote(members[0].key) + [COLON], Canonicalize(members[0].value));
      MembersAreWhole(context, members[1..]);
      WholeParts(head, [COMMA]);
      WholeParts(head + [COMMA], CanonicalMembers(context, members[1..]));
    }
  }

  // ----- Which text is signed -----

  lemma {:induction false} NormalIsOrdered(v: Value)
    requires Plain(v)
    ensures Ordered(Normal(v))
    decreases v
  {
    NormalParts(v);
    if v.Array? {
      forall i | 0 <= i < |v.items| ensures Ordered(NormalItems(v.items)[i]) {
        NormalIsOrdered(v.items[i]);
      }
    } else if v.Object? {
      KeptOfNormal(v);
      forall i | 0 <= i < |Kept(v.members)| ensures Ordered(NormalMembers(Kept(v.members))[i].value) {
        PlainKept(v, i);
        NormalIsOrdered(Kept(v.members)[i].value);
      }
    }
  }

  /**
   * The canonical text is well-formed UTF-16 and reads as the value in normal form, and no other such text is shorter;
   * one as long is the same but for capital hexadecimal digits in its escapes.
   */
  lemma CanonicalIsShortest(v: Value, t: Text)
    requires Plain(v)
    ensures Whole(Canonicalize(v)) && Parse(Canonicalize(v)) == Some(Normal(v))
    ensures Whole(t) && Parse(t) == Some(Normal(v)) ==>
      |Canonicalize(v)| < |t| || Alike(Canonicalize(v), t)
  {
    CanonicalIsWhole(v);
    ParseUndoesCanonicalize(v);
    if Whole(t) && Parse(t) == Some(Normal(v)) {
      var rest := ParseValue(t).value.1;
      NormalIsOrdered(v);
      NormalIsCanonical(v);
      ValueIsShort(t, Normal(v), rest);
      assert |t| == |Canonicalize(v)| ==> t[..|t|] == t;
    }
  }

  // ----- One text in full -----

  /** Keys in order, nothing undefined, no white space, and only what must be is escaped. */
  lemma CanonicalSample()
    ensures var v := Object([Member([98], String([45, 9])), Member([97], Array([Null, Bool(true)])),
                             Member([99], Undefined)]);
      Canonicalize(v) == Ascii("{\"a\":[null,true],\"b\":\"-\\t\"}")
  {
    var a, b, c := Member([97], Array([Null, Bool(true)])), Member([98], String([45, 9])), Member([99], Undefined);
    var v := Object([b, a, c]);
    ListSample();
    QuoteSample();
    KeptSample(a, b, c);
    MembersTextIs(b, []);
    MembersTextIs(a, [b]);
    MembersInContext(v, Object([a, b]), [a, b]);
    JoinSample(Canonicalize(v), Head(a), Head(b));
  }

  lemma ListSample()
    ensures Canonicalize(Array([Null, Bool(true)])) == Ascii("[null,true]")
  {
    ItemsTextIs(Bool(true), []);
    ItemsTextIs(Null, [Bool(true)]);
    ArrayTextIs([Null, Bool(true)]);
    assert [Null] + [Bool(true)] == [Null, Bool(true)];
  }

  lemma QuoteSample()
    ensures Quote([97]) == Ascii("\"a\"") && Quote([98]) == Ascii("\"b\"")
    ensures Quote([45, 9]) == Ascii("\"-\\t\"")
  {
    assert [45, 9][1..] == [9] && QuoteBody([9]) == [92, 116];
    assert QuoteBody([45, 9]) == [45] + QuoteBody([9]);
  }

  /** A surrogate on its own is escaped, from the first to the last; in a pair it is not, nor are its neighbours. */
  lemma SurrogateSamples()
    ensures QuoteBody([0xD800]) == Ascii("\\ud800") && QuoteBody([0xDBFF]) == Ascii("\\udbff")
    ensures QuoteBody([0xDC00]) == Ascii("\\udc00") && QuoteBody([0xDFFF]) == Ascii("\\udfff")
    ensures QuoteBody([0xD7FF]) == [0xD7FF] && QuoteBody([0xE000]) == [0xE000]
    ensures QuoteBody([0xD800, 0xDC00]) == [0xD800, 0xDC00] && QuoteBody([0xDBFF, 0xDFFF]) == [0xDBFF, 0xDFFF]
  {
    assert [0xD800, 0xDC00][2..] == [] && [0xDBFF, 0xDFFF][2..] == [];
  }

  lemma JoinSample(whole: Text, a: Text, b: Text)
    requires whole == [OPEN_BRACE] + (a + [COMMA] + b) + [CLOSE_BRACE]
    requires a == Ascii("\"a\"") + [COLON] + Ascii("[null,true]")
    requires b == Ascii("\"b\"") + [COLON] + Ascii("\"-\\t\"")
    ensures whole == Ascii("{\"a\":[null,true],\"b\":\"-\\t\"}")
  {
    MemberSample(a, "\"a\"", "[null,true]", "\"a\":[null,true]");
    MemberSample(b, "\"b\"", "\"-\\t\"", "\"b\":\"-\\t\"");
    ObjectSample(whole, a, b, "\"a\":[null,true]", "\"b\":\"-\\t\"", "{\"a\":[null,true],\"b\":\"-\\t\"}");
  }

  predicate IsAscii(s: string) {
    forall i :: 0 <= i < |s| ==> s[i] as int < 128
  }

  lemma MemberSample(text: Text, key: string, value: string, all: string)
    requires IsAscii(key) && IsAscii(value) && all == key + ":" + value
    requires text == Ascii(key) + [COLON] + Ascii(value)
    ensures IsAscii(all) && text == Ascii(all)
  {
  }

  lemma ObjectSample(text: Text, a: Text, b: Text, s: string, t: string, all: string)
    requires IsAscii(s) && IsAscii(t) && a == Ascii(s) && b == Ascii(t) && all == "{" + s + "," + t + "}"
    requires text == [OPEN_BRACE] + (a + [COMMA] + b) + [CLOSE_BRACE]
    ensures IsAscii(all) && text == Ascii(all)
  {
  }

  lemma KeptSample(a: Member, b: Member, c: Member)
    requires a.key == [97] && b.key == [98] && a.value != Undefined && b.value != Undefined && c.value == Undefined
    ensures Kept([b, a, c]) == [a, b]
  {
    assert [b, a, c][1..] == [a, c] && [a, c][1..] == [c] && [c][1..] == [];
    assert Defined([c]) == [] && Defined([a, c]) == [a] && Defined([b, a, c]) == [b, a];
    assert [b, a][1..] == [a] && [a][1..] == [];
    assert SortByKey([a]) == [a];
    assert InsertByKey([a], b) == [a] + InsertByKey([], b);
  }
}
