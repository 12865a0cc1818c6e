/** What canonical bytes determine, and why a receipt survives export and import. */
module ReceiptTheorems {
  import opened CanonicalReading
  import opened JsonText
  import opened Receipt
  import opened Wrappers

  /** Parsing a canonical text gives the value in normal form: its defined members, in key order, at every level. */
  lemma ParseUndoesCanonicalize(v: Value)
    requires Plain(v)
    ensures Parse(Canonicalize(v)) == Some(Normal(v))
  {
    assert Canonicalize(v) == Canonicalize(v) + [];
    ValueIsReadBack(Canonicalize(v), v, []);
  }

  // ----- The normal form is canonical already -----

  lemma {:induction false} DefinedKeepsDefined(members: seq<Member>)
    requires forall i :: 0 <= i < |members| ==> members[i].value != Undefined
    ensures Defined(members) == members
  {
    if members != [] {
      DefinedKeepsDefined(members[1..]);
      assert members == [members[0]] + members[1..];
    }
  }

  lemma {:induction false} SortKeepsAscending(members: seq<Member>)
    requires Ascending(members)
    ensures SortByKey(members) == members
  {
    if members != [] {
      SortKeepsAscending(members[1..]);
      if |members| > 1 {
        assert Precedes(members[0].key, members[1].key);
      }
      assert members == [members[0]] + members[1..];
    }
  }

  lemma KeptOfNormal(v: Value)
    requires v.Object? && Plain(v)
    ensures Kept(Normal(v).members) == Normal(v).members == NormalMembers(Kept(v.members))
    ensures Ascending(NormalMembers(Kept(v.members)))
  {
    NormalParts(v);
    var normals := NormalMembers(Kept(v.members));
    KeptAscends(v.members);
    forall i | 0 <= i < |normals| ensures normals[i].value != Undefined {
      PlainKept(v, i);
    }
    DefinedKeepsDefined(normals);
    SortKeepsAscending(normals);
  }

  /** Normalising loses nothing that is signed and is done once. */
  lemma {:induction false} NormalIsCanonical(v: Value)
    requires Plain(v)
    ensures Plain(Normal(v)) && Canonicalize(Normal(v)) == Canonicalize(v)
    decreases v
  {
    NormalParts(v);
    if v.Array? {
      forall i | 0 <= i < |v.items| ensures Plain(NormalItems(v.items)[i]) {
        NormalIsCanonical(v.items[i]);
      }
      ItemsSameText(Normal(v), NormalItems(v.items), v, v.items);
    } else if v.Object? {
      var kept := Kept(v.members);
      KeptOfNormal(v);
      AscendingIsDistinct(NormalMembers(kept));
      forall i | 0 <= i < |kept| ensures kept[i].value < v && Plain(kept[i].value) && Plain(Normal(kept[i].value)) {
        PlainKept(v, i);
        NormalIsCanonical(kept[i].value);
      }
      MembersSameText(Normal(v), NormalMembers(kept), v, kept);
    }
  }

  lemma {:induction false} ItemsSameText(c: Value, normals: seq<Value>, d: Value, items: seq<Value>)
    requires forall i :: 0 <= i < |items| ==> items[i] < d && Plain(items[i])
    requires forall i :: 0 <= i < |normals| ==> normals[i] < c
    requires normals == NormalItems(items)
    ensures CanonicalItems(c, normals) == CanonicalItems(d, items)
    decreases d, 0, |items|
  {
    if items != [] {
      NormalIsCanonical(items[0]);
      assert NormalItems(items)[1..] == NormalItems(items[1..]);
      ItemsSameText(c, normals[1..], d, items[1..]);
    }
  }

  lemma {:induction false} MembersSameText(c: Value, normals: seq<Member>, d: Value, members: seq<Member>)
    requires forall i :: 0 <= i < |members| ==> members[i].value < d && Plain(members[i].value)
    requires forall i :: 0 <= i < |normals| ==> normals[i].value < c
    requires normals == NormalMembers(members)
    ensures CanonicalMembers(c, normals) == CanonicalMembers(d, members)
    decreases d, 0, |members|
  {
    if members != [] {
      NormalIsCanonical(members[0].value);
      assert NormalMembers(members)[1..] == NormalMembers(members[1..]);
      MembersSameText(c, normals[1..], d, members[1..]);
      assert CanonicalMember(c, normals[0]) == CanonicalMember(d, members[0]);
    }
  }

  // ----- When two values say the same -----

  /** Equality of JSON values, with no word about order: same keys, same values under them. */
  predicate Same(v: Value, w: Value) {
    if v.Array? && w.Array? then
      |v.items| == |w.items| && forall i :: 0 <= i < |v.items| ==> Same(v.items[i], w.items[i])
    else if v.Object? && w.Object? then
      (forall i :: 0 <= i < |v.members| && v.members[i].value != Undefined ==>
        exists j :: 0 <= j < |w.members| && w.members[j].key == v.members[i].key
                    && w.members[j].value != Undefined && Same(v.members[i].value, w.members[j].value))
      && (forall j :: 0 <= j < |w.members| && w.members[j].value != Undefined ==>
            HasDefined(v.members, w.members[j].key))
    else v == w
  }

  predicate HasDefined(members: seq<Member>, key: Text) {
    exists i :: 0 <= i < |members| && members[i].key == key && members[i].value != Undefined
  }

  lemma KeptHolds(members: seq<Member>, i: nat)
    requires i < |members| && members[i].value != Undefined
    ensures exists k :: 0 <= k < |Kept(members)| && Kept(members)[k] == members[i]
  {
    assert members[i] in Kept(members);
  }

  lemma KeptComesFrom(members: seq<Member>, k: nat)
    requires k < |Kept(members)|
    ensures Kept(members)[k].value != Undefined
    ensures exists i :: 0 <= i < |members| && members[i] == Kept(members)[k]
  {
    assert Kept(members)[k] in members;
  }

  /** A key set has one ascending order. */
  lemma {:induction false} AscendingKeysAgree(a: seq<Member>, b: seq<Member>)
    requires Ascending(a) && Ascending(b)
    requires forall i :: 0 <= i < |a| ==> HasKey(b, a[i].key)
    requires forall i :: 0 <= i < |b| ==> HasKey(a, b[i].key)
    ensures |a| == |b| && forall i :: 0 <= i < |a| ==> a[i].key == b[i].key
  {
    var probe := if b == [] then [] else b[0].key;
    assert b != [] ==> HasKey(a, probe);
    if a != [] {
      assert HasKey(b, a[0].key);
      FirstKeysAgree(a, b);
      TailKeys(a, b);
      TailKeys(b, a);
      AscendingKeysAgree(a[1..], b[1..]);
      assert forall k :: 1 <= k < |a| ==> a[k] == a[1..][k - 1] && b[k] == b[1..][k - 1];
    }
  }

  lemma FirstKeysAgree(a: seq<Member>, b: seq<Member>)
    requires a != [] && b != [] && Ascending(a) && Ascending(b) && HasKey(b, a[0].key) && HasKey(a, b[0].key)
    ensures a[0].key == b[0].key
  {
    var j :| 0 <= j < |b| && b[j].key == a[0].key;
    var i :| 0 <= i < |a| && a[i].key == b[0].key;
    PrecedesIsTotal(a[0].key, b[0].key);
  }

  lemma TailKeys(a: seq<Member>, b: seq<Member>)
    requires a != [] && b != [] && Ascending(a) && a[0].key == b[0].key
    requires forall i :: 0 <= i < |a| ==> HasKey(b, a[i].key)
    ensures forall i :: 0 <= i < |a| - 1 ==> HasKey(b[1..], a[1..][i].key)
  {
    forall i | 0 <= i < |a| - 1 ensures HasKey(b[1..], a[1..][i].key) {
      PrecedesIsTotal(a[0].key, a[i + 1].key);
      var j :| 0 <= j < |b| && b[j].key == a[i + 1].key;
      assert b[1..][j - 1].key == a[1..][i].key;
    }
  }

  lemma AscendingKeyIsUnique(members: seq<Member>, i: nat, k: nat)
    requires Ascending(members) && i < |members| && k < |members| && members[i].key == members[k].key
    ensures i == k
  {
    AscendingIsDistinct(members);
  }

  lemma SameKeysKept(v: Value, w: Value)
    requires v.Object? && w.Object? && Plain(v) && Plain(w) && Same(v, w)
    ensures var a, b := Kept(v.members), Kept(w.members);
      |a| == |b| && forall k :: 0 <= k < |a| ==> a[k].key == b[k].key
  {
    var a, b := Kept(v.members), Kept(w.members);
    KeptAscends(v.members);
    KeptAscends(w.members);
    forall k | 0 <= k < |a| ensures HasKey(b, a[k].key) {
      KeptComesFrom(v.members, k);
      var i :| 0 <= i < |v.members| && v.members[i] == a[k];
      var j :| 0 <= j < |w.members| && w.members[j].key == v.members[i].key && w.members[j].value != Undefined
               && Same(v.members[i].value, w.members[j].value);
      KeptHolds(w.members, j);
    }
    forall k | 0 <= k < |b| ensures HasKey(a, b[k].key) {
      KeptComesFrom(w.members, k);
      var j :| 0 <= j < |w.members| && w.members[j] == b[k];
      assert HasDefined(v.members, w.members[j].key);
      var i :| 0 <= i < |v.members| && v.members[i].key == w.members[j].key && v.members[i].value != Undefined;
      KeptHolds(v.members, i);
    }
    AscendingKeysAgree(a, b);
  }

  lemma SameValueKept(v: Value, w: Value, k: nat)
    requires v.Object? && w.Object? && Plain(v) && Plain(w) && Same(v, w)
    requires |Kept(v.members)| == |Kept(w.members)| && k < |Kept(v.members)|
    requires Kept(v.members)[k].key == Kept(w.members)[k].key
    ensures Same(Kept(v.members)[k].value, Kept(w.members)[k].value)
  {
    KeptComesFrom(v.members, k);
    var i :| 0 <= i < |v.members| && v.members[i] == Kept(v.members)[k];
    var j :| 0 <= j < |w.members| && w.members[j].key == v.members[i].key && w.members[j].value != Undefined
             && Same(v.members[i].value, w.members[j].value);
    KeptHolds(w.members, j);
    var l :| 0 <= l < |Kept(w.members)| && Kept(w.members)[l] == w.members[j];
    KeptAscends(w.members);
    AscendingKeyIsUnique(Kept(w.members), l, k);
  }

  lemma {:induction false} SameMeansNormalEqual(v: Value, w: Value)
    requires Plain(v) && Plain(w) && Same(v, w)
    ensures Normal(v) == Normal(w)
    decreases v
  {
    NormalParts(v);
    NormalParts(w);
    if v.Array? && w.Array? {
      forall i | 0 <= i < |v.items| ensures NormalItems(v.items)[i] == NormalItems(w.items)[i] {
        SameMeansNormalEqual(v.items[i], w.items[i]);
      }
      assert NormalItems(v.items) == NormalItems(w.items);
    } else if v.Object? && w.Object? {
      var a, b := Kept(v.members), Kept(w.members);
      SameKeysKept(v, w);
      forall k | 0 <= k < |a| ensures NormalMembers(a)[k] == NormalMembers(b)[k] {
        PlainKept(v, k);
        PlainKept(w, k);
        SameValueKept(v, w, k);
        SameMeansNormalEqual(a[k].value, b[k].value);
      }
      assert NormalMembers(a) == NormalMembers(b);
    }
  }

  lemma {:induction false} NormalEqualMeansSame(v: Value, w: Value)
    requires Plain(v) && Plain(w) && Normal(v) == Normal(w)
    ensures Same(v, w)
    decreases v
  {
    NormalParts(v);
    NormalParts(w);
    if v.Array? && w.Array? {
      forall i | 0 <= i < |v.items| ensures Same(v.items[i], w.items[i]) {
        assert NormalItems(v.items)[i] == NormalItems(w.items)[i];
        NormalEqualMeansSame(v.items[i], w.items[i]);
      }
    } else if v.Object? && w.Object? {
      var a, b := Kept(v.members), Kept(w.members);
      assert NormalMembers(a) == NormalMembers(b) && |a| == |b|;
      forall k | 0 <= k < |a| ensures a[k].key == b[k].key && Same(a[k].value, b[k].value) {
        assert NormalMembers(a)[k] == NormalMembers(b)[k];
        PlainKept(v, k);
        PlainKept(w, k);
        NormalEqualMeansSame(a[k].value, b[k].value);
      }
      KeptSameMeansSame(v, w);
    }
  }

  lemma KeptSameMeansSame(v: Value, w: Value)
    requires v.Object? && w.Object? && |Kept(v.members)| == |Kept(w.members)|
    requires forall k :: 0 <= k < |Kept(v.members)| ==>
      Kept(v.members)[k].key == Kept(w.members)[k].key
      && Same(Kept(v.members)[k].value, Kept(w.members)[k].value)
    ensures Same(v, w)
  {
    forall i | 0 <= i < |v.members| && v.members[i].value != Undefined
      ensures exists j :: 0 <= j < |w.members| && w.members[j].key == v.members[i].key
                          && w.members[j].value != Undefined && Same(v.members[i].value, w.members[j].value)
    {
      KeptHolds(v.members, i);
      var k :| 0 <= k < |Kept(v.members)| && Kept(v.members)[k] == v.members[i];
      KeptComesFrom(w.members, k);
      var j :| 0 <= j < |w.members| && w.members[j] == Kept(w.members)[k];
    }
    forall j | 0 <= j < |w.members| && w.members[j].value != Undefined
      ensures HasDefined(v.members, w.members[j].key)
    {
      KeptHolds(w.members, j);
      var k :| 0 <= k < |Kept(w.members)| && Kept(w.members)[k] == w.members[j];
      KeptComesFrom(v.members, k);
      var i :| 0 <= i < |v.members| && v.members[i] == Kept(v.members)[k];
    }
  }

  /** Two values have one canonical text exactly when they say the same, whatever order their keys were set in. */
  lemma CanonicalTextIsMeaning(v: Value, w: Value)
    requires Plain(v) && Plain(w)
    ensures Canonicalize(v) == Canonicalize(w) <==> Same(v, w)
  {
    if Canonicalize(v) == Canonicalize(w) {
      ParseUndoesCanonicalize(v);
      ParseUndoesCanonicalize(w);
      NormalEqualMeansSame(v, w);
    }
    if Same(v, w) {
      SameMeansNormalEqual(v, w);
      NormalIsCanonical(v);
      NormalIsCanonical(w);
    }
  }

  // ----- Receipts -----

  function Ascii(s: string): Text
    requires forall i :: 0 <= i < |s| ==> s[i] as int < 128
  {
    seq(|s|, i requires 0 <= i < |s| => s[i] as int as Unit)
  }

  const STATEMENT := Ascii("statement")
  const SIGNATURE := Ascii("signature")
  const VERSION := Ascii("version")
  const ISSUED_AT := Ascii("issuedAt")
  const RECEIPT_VERSION := String(Ascii("oreochain-receipt-v1"))

  function Lookup(v: Value, key: Text): Value {
    if v.Object? && HasKey(v.members, key) then LastValue(v.members, key) else Undefined
  }

  predicate Truthy(v: Value) {
    match v
    case Undefined => false
    case Null => false
    case Bool(bit) => bit
    case Number(token) => token != [48]
    case String(text) => text != []
    case _ => true
  }

  function ExportReceipt(receipt: Value): Text {
    Canonicalize(receipt)
  }

  function ImportReceipt(text: Text): Option<Value> {
    match Parse(text)
    case None => None
    case Some(v) => if v.Array? || v.Object? then Some(v) else None
  }

  datatype SignatureCheck = NotBase64 | Wrong | Good

  datatype Reason =
    | Malformed | UnsupportedVersion | SignatureNotBase64 | WrongSignature | NoTimestamp | FromTheFuture | TooOld

  datatype ReceiptVerdict = Valid(statement: Value) | Invalid(reason: Reason)

  /** `check` is the platform's signature check over the canonical text, `dateOf` its date parser. */
  function VerifyReceipt(receipt: Value, check: (Value, Text) -> SignatureCheck, dateOf: Value -> Option<int>,
                         now: int, maxAge: Option<int>): ReceiptVerdict
  {
    var statement, signature := Lookup(receipt, STATEMENT), Lookup(receipt, SIGNATURE);
    Judge(Truthy(receipt) && Truthy(statement) && Truthy(signature), Lookup(statement, VERSION) == RECEIPT_VERSION,
          check(signature, Canonicalize(statement)), dateOf(Lookup(statement, ISSUED_AT)), now, maxAge, statement)
  }

  /** The checks in the order the verifier makes them. */
  function Judge(present: bool, knownVersion: bool, signature: SignatureCheck, issuedAt: Option<int>, now: int,
                 maxAge: Option<int>, statement: Value): ReceiptVerdict
  {
    if !present then Invalid(Malformed)
    else if !knownVersion then Invalid(UnsupportedVersion)
    else if signature == NotBase64 then Invalid(SignatureNotBase64)
    else if signature == Wrong then Invalid(WrongSignature)
    else if issuedAt.None? then Invalid(NoTimestamp)
    else if issuedAt.value > now + 300000 then Invalid(FromTheFuture)
    else if maxAge.Some? && now - issuedAt.value > maxAge.value then Invalid(TooOld)
    else Valid(statement)
  }

  lemma {:induction false} LastValueIsTheOne(members: seq<Member>, key: Text, i: nat)
    requires DistinctKeys(members) && i < |members| && members[i].key == key
    ensures HasKey(members, key) && LastValue(members, key) == members[i].value
  {
    var last := |members| - 1;
    if i < last {
      assert members[i].key != members[last].key;
      LastValueIsTheOne(members[..last], key, i);
    }
  }

  /** A member that says something keeps its value in the normal form. */
  lemma KeptMemberIsRead(members: seq<Member>, key: Text)
    requires DistinctKeys(members) && HasKey(members, key) && LastValue(members, key) != Undefined
    requires DistinctKeys(NormalMembers(Kept(members)))
    ensures HasKey(NormalMembers(Kept(members)), key)
    ensures LastValue(NormalMembers(Kept(members)), key) == Normal(LastValue(members, key))
  {
    var i :| 0 <= i < |members| && members[i].key == key;
    LastValueIsTheOne(members, key, i);
    KeptHolds(members, i);
    var k :| 0 <= k < |Kept(members)| && Kept(members)[k] == members[i];
    LastValueIsTheOne(NormalMembers(Kept(members)), key, k);
  }

  lemma NormalKeyIsKept(members: seq<Member>, key: Text)
    requires DistinctKeys(members) && HasKey(NormalMembers(Kept(members)), key)
    ensures HasKey(members, key) && LastValue(members, key) != Undefined
  {
    var k :| 0 <= k < |Kept(members)| && NormalMembers(Kept(members))[k].key == key;
    KeptComesFrom(members, k);
    var i :| 0 <= i < |members| && members[i] == Kept(members)[k];
    LastValueIsTheOne(members, key, i);
  }

  /** Reading a member of the normal form gives the normal form of the member. */
  lemma LookupOfNormal(v: Value, key: Text)
    requires Plain(v)
    ensures Lookup(Normal(v), key) == Normal(Lookup(v, key))
    ensures Lookup(v, key) == Undefined || Plain(Lookup(v, key))
  {
    NormalParts(v);
    if v.Object? {
      KeptAscends(v.members);
      AscendingIsDistinct(Kept(v.members));
      if HasKey(v.members, key) {
        var i :| 0 <= i < |v.members| && v.members[i].key == key;
        LastValueIsTheOne(v.members, key, i);
      }
      if HasKey(v.members, key) && LastValue(v.members, key) != Undefined {
        KeptMemberIsRead(v.members, key);
      } else if HasKey(NormalMembers(Kept(v.members)), key) {
        NormalKeyIsKept(v.members, key);
      }
    }
  }

  /** Exporting a receipt and importing it again leaves the bytes that were signed untouched. */
  lemma ExportKeepsSignedText(receipt: Value)
    requires Plain(receipt) && receipt.Object? && Lookup(receipt, STATEMENT) != Undefined
    ensures ImportReceipt(ExportReceipt(receipt)) == Some(Normal(receipt))
    ensures Canonicalize(Lookup(Normal(receipt), STATEMENT)) == Canonicalize(Lookup(receipt, STATEMENT))
  {
    ParseUndoesCanonicalize(receipt);
    LookupOfNormal(receipt, STATEMENT);
    NormalIsCanonical(Lookup(receipt, STATEMENT));
  }

  predicate Scalar(v: Value) {
    !v.Array? && !v.Object?
  }

  function NormalVerdict(verdict: ReceiptVerdict): ReceiptVerdict {
    if verdict.Valid? then Valid(Normal(verdict.statement)) else verdict
  }

  /** So the imported receipt gets the verdict the exported one would have got, about the same statement. */
  lemma ImportedReceiptVerifiesAlike(receipt: Value, check: (Value, Text) -> SignatureCheck,
                                     dateOf: Value -> Option<int>, now: int, maxAge: Option<int>)
    requires Plain(receipt) && receipt.Object? && Scalar(Lookup(receipt, SIGNATURE))
    requires Scalar(Lookup(Lookup(receipt, STATEMENT), ISSUED_AT))
    ensures ImportReceipt(ExportReceipt(receipt)).Some?
    ensures VerifyReceipt(ImportReceipt(ExportReceipt(receipt)).value, check, dateOf, now, maxAge)
         == NormalVerdict(VerifyReceipt(receipt, check, dateOf, now, maxAge))
  {
    ParseUndoesCanonicalize(receipt);
    LookupOfNormal(receipt, STATEMENT);
    LookupOfNormal(receipt, SIGNATURE);
    var statement := Lookup(receipt, STATEMENT);
    StatementReadsAlike(statement);
    NormalParts(receipt);
    AlikePartsVerifyAlike(receipt, Normal(receipt), check, dateOf, now, maxAge);
  }

  lemma AlikePartsVerifyAlike(receipt: Value, normal: Value, check: (Value, Text) -> SignatureCheck,
                              dateOf: Value -> Option<int>, now: int, maxAge: Option<int>)
    requires Truthy(normal) == Truthy(receipt) && Lookup(normal, SIGNATURE) == Lookup(receipt, SIGNATURE)
    requires Lookup(normal, STATEMENT) == Normal(Lookup(receipt, STATEMENT))
    requires ReadsAlike(Lookup(receipt, STATEMENT), Lookup(normal, STATEMENT))
    ensures VerifyReceipt(normal, check, dateOf, now, maxAge)
         == NormalVerdict(VerifyReceipt(receipt, check, dateOf, now, maxAge))
  {
    var statement, signature := Lookup(receipt, STATEMENT), Lookup(receipt, SIGNATURE);
    JudgeStatement(Truthy(receipt) && Truthy(statement) && Truthy(signature),
                   Lookup(statement, VERSION) == RECEIPT_VERSION, check(signature, Canonicalize(statement)),
                   dateOf(Lookup(statement, ISSUED_AT)), now, maxAge, statement);
  }

  /** All that the verifier reads of a statement. */
  predicate ReadsAlike(statement: Value, other: Value) {
    Truthy(other) == Truthy(statement) && Canonicalize(other) == Canonicalize(statement)
    && (Lookup(other, VERSION) == RECEIPT_VERSION) == (Lookup(statement, VERSION) == RECEIPT_VERSION)
    && Lookup(other, ISSUED_AT) == Lookup(statement, ISSUED_AT)
  }

  lemma JudgeStatement(present: bool, knownVersion: bool, signature: SignatureCheck, issuedAt: Option<int>, now: int,
                       maxAge: Option<int>, statement: Value)
    ensures Judge(present, knownVersion, signature, issuedAt, now, maxAge, Normal(statement))
         == NormalVerdict(Judge(present, knownVersion, signature, issuedAt, now, maxAge, statement))
  {
  }

  /** The parts of a statement the verifier looks at are those of its normal form. */
  lemma StatementReadsAlike(statement: Value)
    requires statement == Undefined || Plain(statement)
    ensures Truthy(Normal(statement)) == Truthy(statement)
    ensures Canonicalize(Normal(statement)) == Canonicalize(statement)
    ensures (Lookup(Normal(statement), VERSION) == RECEIPT_VERSION) == (Lookup(statement, VERSION) == RECEIPT_VERSION)
    ensures Scalar(Lookup(statement, ISSUED_AT)) ==>
      Lookup(Normal(statement), ISSUED_AT) == Lookup(statement, ISSUED_AT)
  {
    if statement != Undefined {
      NormalIsCanonical(statement);
      LookupOfNormal(statement, VERSION);
      LookupOfNormal(statement, ISSUED_AT);
    }
  }
}
