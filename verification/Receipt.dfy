/** Canonical serialisation of receipts, and what its bytes determine (js/core/receipt.js). */
module Receipt {
  import opened JsonText

  // ----- canonicalize -----

  /** Unit by unit, the way JavaScript's default sort compares strings. */
  predicate Precedes(a: Text, b: Text) {
    if a == [] || b == [] then a == [] && b != []
    else a[0] < b[0] || (a[0] == b[0] && Precedes(a[1..], b[1..]))
  }

  function Defined(members: seq<Member>): seq<Member> {
    if members == [] then []
    else (if members[0].value == Undefined then [] else [members[0]]) + Defined(members[1..])
  }

  function InsertByKey(sorted: seq<Member>, m: Member): seq<Member> {
    if sorted == [] || Precedes(m.key, sorted[0].key) then [m] + sorted
    else [sorted[0]] + InsertByKey(sorted[1..], m)
  }

  function SortByKey(members: seq<Member>): seq<Member> {
    if members == [] then [] else InsertByKey(SortByKey(members[1..]), members[0])
  }

  /** The members that are printed, in the order they are printed. */
  function Kept(members: seq<Member>): (kept: seq<Member>)
    ensures forall m :: m in kept <==> m in members && m.value != Undefined
  {
    DefinedMembers(members);
    SortMembers(Defined(members));
    SortByKey(Defined(members))
  }

  lemma DefinedMembers(members: seq<Member>)
    ensures forall m :: m in Defined(members) <==> m in members && m.value != Undefined
  {
  }

  lemma InsertMembers(sorted: seq<Member>, m: Member)
    ensures forall x :: x in InsertByKey(sorted, m) <==> x == m || x in sorted
  {
  }

  lemma SortMembers(members: seq<Member>)
    ensures forall m :: m in SortByKey(members) <==> m in members
  {
    if members != [] {
      SortMembers(members[1..]);
      InsertMembers(SortByKey(members[1..]), members[0]);
    }
  }

  function Canonicalize(v: Value): Text
    decreases v
  {
    match v
    case Undefined => []
    case Null => NULL_TEXT
    case Bool(bit) => if bit then TRUE_TEXT else FALSE_TEXT
    case Number(token) => token
    case String(text) => Quote(text)
    case Array(items) => [OPEN_BRACKET] + CanonicalItems(v, items) + [CLOSE_BRACKET]
    case Object(members) => [OPEN_BRACE] + CanonicalMembers(v, Kept(members)) + [CLOSE_BRACE]
  }

  function CanonicalItems(context: Value, items: seq<Value>): Text
    requires forall i :: 0 <= i < |items| ==> items[i] < context
    decreases context, |items|
  {
    if items == [] then []
    else if |items| == 1 then Canonicalize(items[0])
    else Canonicalize(items[0]) + [COMMA] + CanonicalItems(context, items[1..])
  }

  function CanonicalMember(context: Value, m: Member): Text
    requires m.value < context
    decreases context, 0
  {
    Quote(m.key) + [COLON] + Canonicalize(m.value)
  }

  function CanonicalMembers(context: Value, members: seq<Member>): Text
    requires forall i :: 0 <= i < |members| ==> members[i].value < context
    decreases context, |members|
  {
    if members == [] then []
    else if |members| == 1 then CanonicalMember(context, members[0])
    else CanonicalMember(context, members[0]) + [COMMA] + CanonicalMembers(context, members[1..])
  }

  // ----- Plain values and their normal form -----

  predicate DistinctKeys(members: seq<Member>) {
    forall i, j :: 0 <= i < j < |members| ==> members[i].key != members[j].key
  }

  /** Values JSON can carry: keys once each, numbers finite; `undefined` only as a member, where it is dropped. */
  predicate Plain(v: Value) {
    match v
    case Undefined => false
    case Number(token) => IsNumber(token)
    case Array(items) => forall i :: 0 <= i < |items| ==> Plain(items[i])
    case Object(members) =>
      DistinctKeys(members)
      && forall i :: 0 <= i < |members| ==> members[i].value == Undefined || Plain(members[i].value)
    case _ => true
  }

  /** The same value without its undefined members, every object's members in key order. */
  function Normal(v: Value): Value {
    match v
    case Array(items) => Array(seq(|items|, i requires 0 <= i < |items| => Normal(items[i])))
    case Object(members) =>
      var kept := Kept(members);
      Object(seq(|kept|, i requires 0 <= i < |kept| => Member(kept[i].key, Normal(kept[i].value))))
    case _ => v
  }

  // ----- Sorting by key -----

  predicate Ascending(members: seq<Member>) {
    forall i, j :: 0 <= i < j < |members| ==> Precedes(members[i].key, members[j].key)
  }

  lemma {:induction false} PrecedesIsTotal(a: Text, b: Text)
    ensures a == b || Precedes(a, b) || Precedes(b, a)
    ensures !(Precedes(a, b) && Precedes(b, a)) && !Precedes(a, a)
  {
    if a != [] {
      PrecedesIsTotal(a[1..], a[1..]);
      if b != [] {
        PrecedesIsTotal(a[1..], b[1..]);
        assert a == [a[0]] + a[1..] && b == [b[0]] + b[1..];
      }
    }
  }

  lemma {:induction false} PrecedesIsTransitive(a: Text, b: Text, c: Text)
    requires Precedes(a, b) && Precedes(b, c)
    ensures Precedes(a, c)
  {
    if a != [] && a[0] == b[0] && b[0] == c[0] {
      PrecedesIsTransitive(a[1..], b[1..], c[1..]);
    }
  }

  lemma {:induction false} InsertAscends(sorted: seq<Member>, m: Member)
    requires Ascending(sorted) && forall x :: x in sorted ==> x.key != m.key
    ensures Ascending(InsertByKey(sorted, m))
  {
    if sorted != [] {
      PrecedesIsTotal(m.key, sorted[0].key);
      assert sorted[0] in sorted;
      if Precedes(m.key, sorted[0].key) {
        forall i | 0 <= i < |sorted| ensures Precedes(m.key, sorted[i].key) {
          if i > 0 {
            PrecedesIsTransitive(m.key, sorted[0].key, sorted[i].key);
          }
        }
      } else {
        var rest := InsertByKey(sorted[1..], m);
        InsertAscends(sorted[1..], m);
        InsertMembers(sorted[1..], m);
        forall i | 0 <= i < |rest| ensures Precedes(sorted[0].key, rest[i].key) {
          assert rest[i] in rest;
        }
      }
    }
  }

  lemma {:induction false} SortAscends(members: seq<Member>)
    requires DistinctKeys(members)
    ensures Ascending(SortByKey(members))
  {
    if members != [] {
      SortAscends(members[1..]);
      SortMembers(members[1..]);
      forall x | x in SortByKey(members[1..]) ensures x.key != members[0].key {
        var k :| 0 <= k < |members[1..]| && members[1..][k] == x;
        assert members[k + 1] == x;
      }
      InsertAscends(SortByKey(members[1..]), members[0]);
    }
  }

  lemma {:induction false} DefinedKeepsDistinct(members: seq<Member>)
    requires DistinctKeys(members)
    ensures DistinctKeys(Defined(members))
  {
    if members != [] {
      DefinedKeepsDistinct(members[1..]);
      DefinedMembers(members[1..]);
      var rest := Defined(members[1..]);
      forall i | 0 <= i < |rest| ensures rest[i].key != members[0].key {
        assert rest[i] in rest;
        var k :| 0 <= k < |members[1..]| && members[1..][k] == rest[i];
        assert members[k + 1] == rest[i];
      }
    }
  }

  /** At the first unit where they differ the first has the smaller one, or it ends there. */
  ghost predicate ComesFirst(a: Text, b: Text) {
    exists k: nat :: k <= |a| && k < |b| && a[..k] == b[..k] && (k == |a| || a[k] < b[k])
  }

  lemma {:induction false} PrecedesAtFirstDifference(a: Text, b: Text)
    requires Precedes(a, b)
    ensures ComesFirst(a, b)
  {
    if a == [] || a[0] < b[0] {
      assert a[..0] == b[..0];
    } else {
      PrecedesAtFirstDifference(a[1..], b[1..]);
      var k: nat :| k <= |a[1..]| && k < |b[1..]| && a[1..][..k] == b[1..][..k]
                    && (k == |a[1..]| || a[1..][k] < b[1..][k]);
      assert a[..k + 1] == [a[0]] + a[1..][..k] && b[..k + 1] == [b[0]] + b[1..][..k];
    }
  }

  lemma KeptAscends(members: seq<Member>)
    requires DistinctKeys(members)
    ensures Ascending(Kept(members))
  {
    DefinedKeepsDistinct(members);
    SortAscends(Defined(members));
  }

  /** Of two members printed the one before has the key that comes first, whatever order they were set in. */
  lemma KeysComeInOrder(members: seq<Member>, i: nat, j: nat)
    requires DistinctKeys(members) && i < j < |Kept(members)|
    ensures ComesFirst(Kept(members)[i].key, Kept(members)[j].key)
  {
    KeptAscends(members);
    PrecedesAtFirstDifference(Kept(members)[i].key, Kept(members)[j].key);
  }
}
