/** Issuing a receipt, and what a valid one proves (js/core/receipt.js, issueReceipt and verifyReceipt). */
module Issuing {
  import opened JsonText
  import opened Receipt
  import opened ReceiptTheorems
  import opened Wrappers

  /** What the issuer is told, and its clock reading as ISO text.  `Undefined` is a field the caller left out. */
  datatype Claim = Claim(issuer: Value, kid: Value, issuedAt: Text, fileHash: Value, merkleRoot: Value,
                         manifestCID: Value, fileSize: Value, totalChunks: Value, encrypted: Value, suite: Value,
                         verified: Value)

  const FIELDS: seq<string> := ["version", "issuer", "kid", "issuedAt", "fileHash", "merkleRoot", "manifestCID",
                                "fileSize", "totalChunks", "encrypted", "suite", "verified"]

  const DEFAULT_ISSUER := String(Ascii("oreochain-gateway"))

  const FILE_HASH := Ascii("fileHash")
  const MERKLE_ROOT := Ascii("merkleRoot")
  const MANIFEST_CID := Ascii("manifestCID")
  const FILE_SIZE := Ascii("fileSize")
  const TOTAL_CHUNKS := Ascii("totalChunks")
  const ENCRYPTED := Ascii("encrypted")
  const SUITE := Ascii("suite")
  const ISSUER := Ascii("issuer")
  const KID := Ascii("kid")
  const VERIFIED := Ascii("verified")

  predicate NonEmptyString(v: Value) {
    v.String? && v.text != []
  }

  predicate Issuable(c: Claim) {
    NonEmptyString(c.fileHash) && NonEmptyString(c.merkleRoot) && NonEmptyString(c.manifestCID)
  }

  function Values(c: Claim, lower: Text -> Text): (values: seq<Value>)
    requires Issuable(c)
    ensures |values| == |FIELDS|
  {
    [RECEIPT_VERSION, if c.issuer == Undefined then DEFAULT_ISSUER else c.issuer,
     if c.kid == Undefined then Null else c.kid, String(c.issuedAt), String(lower(c.fileHash.text)),
     String(lower(c.merkleRoot.text)), c.manifestCID, c.fileSize, c.totalChunks,
     if c.encrypted == Undefined then Undefined else Bool(Truthy(c.encrypted)),
     if c.suite == Undefined then Undefined else if Truthy(c.suite) then c.suite else Null,
     Bool(Truthy(c.verified))]
  }

  function Statement(c: Claim, lower: Text -> Text): Value
    requires Issuable(c)
  {
    var values := Values(c, lower);
    AreAscii();
    Object(seq(|FIELDS|, i requires 0 <= i < |FIELDS| => Member(Ascii(FIELDS[i]), values[i])))
  }

  function IssueReceipt(c: Claim, lower: Text -> Text, sign: Text -> Text): Option<Value> {
    if !Issuable(c) then None
    else
      var statement := Statement(c, lower);
      Some(Object([Member(STATEMENT, statement), Member(SIGNATURE, String(sign(Canonicalize(statement))))]))
  }

  /** A receipt is issued exactly for a document with its three names, and holds its statement, signed. */
  lemma IssuedReceiptIs(c: Claim, lower: Text -> Text, sign: Text -> Text)
    ensures IssueReceipt(c, lower, sign).Some? <==>
      NonEmptyString(c.fileHash) && NonEmptyString(c.merkleRoot) && NonEmptyString(c.manifestCID)
    ensures Issuable(c) ==>
      var receipt, statement := IssueReceipt(c, lower, sign).value, Statement(c, lower);
      receipt == Object([Member(STATEMENT, statement), Member(SIGNATURE, String(sign(Canonicalize(statement))))])
  {
  }

  // ----- The statement's fields -----

  lemma AreAscii()
    ensures forall i, k :: 0 <= i < |FIELDS| && 0 <= k < |FIELDS[i]| ==> FIELDS[i][k] as int < 128
  {
  }

  lemma FieldsDiffer(i: nat, j: nat)
    requires i < j < |FIELDS|
    ensures FIELDS[i] != FIELDS[j]
  {
    if |FIELDS[i]| == |FIELDS[j]| {
      assert FIELDS[i][0] != FIELDS[j][0] || FIELDS[i][4] != FIELDS[j][4];
    }
  }

  lemma AsciiIsInjective(s: string, t: string)
    requires (forall i :: 0 <= i < |s| ==> s[i] as int < 128) && (forall i :: 0 <= i < |t| ==> t[i] as int < 128)
    requires Ascii(s) == Ascii(t)
    ensures s == t
  {
    assert |s| == |Ascii(s)| == |t|;
    forall i | 0 <= i < |s| ensures s[i] == t[i] {
      assert Ascii(s)[i] == Ascii(t)[i];
    }
  }

  lemma StatementHasDistinctKeys(c: Claim, lower: Text -> Text)
    requires Issuable(c)
    ensures DistinctKeys(Statement(c, lower).members)
  {
    AreAscii();
    var members := Statement(c, lower).members;
    forall i, j | 0 <= i < j < |members| ensures members[i].key != members[j].key {
      FieldsDiffer(i, j);
      if members[i].key == members[j].key {
        AsciiIsInjective(FIELDS[i], FIELDS[j]);
      }
    }
  }

  /** The parts of a claim that are copied as they are can be carried by JSON. */
  predicate PlainClaim(c: Claim) {
    forall v :: v in [c.issuer, c.kid, c.fileSize, c.totalChunks, c.suite] ==> v == Undefined || Plain(v)
  }

  lemma StatementIsPlain(c: Claim, lower: Text -> Text)
    requires Issuable(c) && PlainClaim(c)
    ensures Plain(Statement(c, lower))
  {
    StatementHasDistinctKeys(c, lower);
    var copied := [c.issuer, c.kid, c.fileSize, c.totalChunks, c.suite];
    assert copied[0] in copied && copied[1] in copied && copied[2] in copied;
    assert copied[3] in copied && copied[4] in copied;
    assert forall v :: v in Values(c, lower) ==> v == Undefined || Plain(v);
  }

  lemma StatementField(c: Claim, lower: Text -> Text, i: nat, key: Text)
    requires Issuable(c) && i < |FIELDS| && Statement(c, lower).members[i].key == key
    ensures Lookup(Statement(c, lower), key) == Values(c, lower)[i]
  {
    StatementHasDistinctKeys(c, lower);
    LastValueIsTheOne(Statement(c, lower).members, key, i);
  }

  lemma FieldIs(c: Claim, lower: Text -> Text, i: nat)
    requires Issuable(c) && i < |FIELDS|
    ensures forall k :: 0 <= k < |FIELDS[i]| ==> FIELDS[i][k] as int < 128
    ensures Lookup(Statement(c, lower), Ascii(FIELDS[i])) == Values(c, lower)[i]
  {
    AreAscii();
    StatementField(c, lower, i, Ascii(FIELDS[i]));
  }

  /**
   * The statement names the document it is issued for, in lower case as anchors do, and asserts neither encryption nor
   * suite for a caller that did not.
   */
  lemma StatementNamesDocument(c: Claim, lower: Text -> Text)
    requires Issuable(c)
    ensures var s := Statement(c, lower);
      Lookup(s, FILE_HASH) == String(lower(c.fileHash.text))
      && Lookup(s, MERKLE_ROOT) == String(lower(c.merkleRoot.text))
      && Lookup(s, MANIFEST_CID) == c.manifestCID && Lookup(s, FILE_SIZE) == c.fileSize
      && Lookup(s, TOTAL_CHUNKS) == c.totalChunks
    ensures var s := Statement(c, lower);
      (Lookup(s, ENCRYPTED) == Undefined <==> c.encrypted == Undefined)
      && (Lookup(s, SUITE) == Undefined <==> c.suite == Undefined)
  {
    FieldIs(c, lower, 4);
    FieldIs(c, lower, 5);
    FieldIs(c, lower, 6);
    FieldIs(c, lower, 7);
    FieldIs(c, lower, 8);
    FieldIs(c, lower, 9);
    FieldIs(c, lower, 10);
  }

  lemma ReceiptLabels()
    ensures RECEIPT_VERSION == String(Ascii("oreochain-receipt-v1"))
    ensures DEFAULT_ISSUER == String(Ascii("oreochain-gateway"))
    ensures STATEMENT == Ascii("statement") && SIGNATURE == Ascii("signature")
  {
  }

  /** It names its issuer, key and date as well. */
  lemma StatementNamesIssuer(c: Claim, lower: Text -> Text)
    requires Issuable(c)
    ensures var s := Statement(c, lower);
      Lookup(s, VERSION) == RECEIPT_VERSION && Lookup(s, ISSUED_AT) == String(c.issuedAt)
      && Lookup(s, ISSUER) == (if c.issuer == Undefined then DEFAULT_ISSUER else c.issuer)
      && Lookup(s, KID) == (if c.kid == Undefined then Null else c.kid)
  {
    FieldIs(c, lower, 0);
    FieldIs(c, lower, 1);
    FieldIs(c, lower, 2);
    FieldIs(c, lower, 3);
  }

  /** It repeats what the caller said of encryption and suite, and says verified only for a caller that said so. */
  lemma StatementAsserts(c: Claim, lower: Text -> Text)
    requires Issuable(c)
    ensures var s := Statement(c, lower);
      (c.encrypted != Undefined ==> Lookup(s, ENCRYPTED) == Bool(!IsEmpty(c.encrypted)))
      && (c.suite != Undefined ==> Lookup(s, SUITE) == if IsEmpty(c.suite) then Null else c.suite)
      && Lookup(s, VERIFIED) == Bool(!IsEmpty(c.verified))
  {
    FieldIs(c, lower, 9);
    FieldIs(c, lower, 10);
    FieldIs(c, lower, 11);
  }

  /** What counts as saying no. */
  predicate IsEmpty(v: Value) {
    v == Undefined || v == Null || v == Bool(false) || v == Number([48]) || v == String([])
  }

  // ----- Issuing and verifying -----

  /** The signer and the verifier hold two halves of one key. */
  ghost predicate Paired(sign: Text -> Text, check: (Value, Text) -> SignatureCheck) {
    forall text :: sign(text) != [] && check(String(sign(text)), text) == Good
  }

  predicate InWindow(issuedAt: Option<int>, now: int, maxAge: Option<int>) {
    issuedAt.Some? && issuedAt.value <= now + 300000 && (maxAge.Some? ==> now - issuedAt.value <= maxAge.value)
  }

  lemma IssuedParts(statement: Value, signature: Value)
    ensures var receipt := Object([Member(STATEMENT, statement), Member(SIGNATURE, signature)]);
      DistinctKeys(receipt.members) && Lookup(receipt, STATEMENT) == statement
      && Lookup(receipt, SIGNATURE) == signature
  {
    var members := [Member(STATEMENT, statement), Member(SIGNATURE, signature)];
    assert STATEMENT[1] != SIGNATURE[1];
    LastValueIsTheOne(members, STATEMENT, 0);
    LastValueIsTheOne(members, SIGNATURE, 1);
  }

  /** A receipt issued, exported as text and imported again verifies, and says what its issuer stated. */
  lemma IssuedReceiptVerifies(c: Claim, lower: Text -> Text, sign: Text -> Text,
                              check: (Value, Text) -> SignatureCheck, dateOf: Value -> Option<int>, now: int,
                              maxAge: Option<int>)
    requires Issuable(c) && PlainClaim(c) && Paired(sign, check)
    requires InWindow(dateOf(String(c.issuedAt)), now, maxAge)
    ensures var imported := ImportReceipt(ExportReceipt(IssueReceipt(c, lower, sign).value));
      imported.Some?
      && VerifyReceipt(imported.value, check, dateOf, now, maxAge) == Valid(Normal(Statement(c, lower)))
  {
    StatementIsPlain(c, lower);
    StatementField(c, lower, 0, VERSION);
    StatementField(c, lower, 3, ISSUED_AT);
    SignedPairVerifies(Statement(c, lower), sign, check, dateOf, now, maxAge);
  }

  function SignedPair(statement: Value, sign: Text -> Text): Value {
    Object([Member(STATEMENT, statement), Member(SIGNATURE, String(sign(Canonicalize(statement))))])
  }

  lemma SignedPairVerifies(statement: Value, sign: Text -> Text, check: (Value, Text) -> SignatureCheck,
                           dateOf: Value -> Option<int>, now: int, maxAge: Option<int>)
    requires statement.Object? && Plain(statement) && Paired(sign, check)
    requires Lookup(statement, VERSION) == RECEIPT_VERSION && Scalar(Lookup(statement, ISSUED_AT))
    requires InWindow(dateOf(Lookup(statement, ISSUED_AT)), now, maxAge)
    ensures var imported := ImportReceipt(ExportReceipt(SignedPair(statement, sign)));
      imported.Some?
      && VerifyReceipt(imported.value, check, dateOf, now, maxAge) == Valid(Normal(statement))
  {
    var signature := String(sign(Canonicalize(statement)));
    var receipt := SignedPair(statement, sign);
    IssuedParts(statement, signature);
    PlainPair(receipt, statement, signature);
    SignedReceiptVerifies(receipt, statement, sign, check, dateOf, now, maxAge);
    ImportedReceiptVerifiesAlike(receipt, check, dateOf, now, maxAge);
  }

  lemma SignedReceiptVerifies(receipt: Value, statement: Value, sign: Text -> Text,
                              check: (Value, Text) -> SignatureCheck, dateOf: Value -> Option<int>, now: int,
                              maxAge: Option<int>)
    requires receipt.Object? && statement.Object? && Paired(sign, check)
    requires Lookup(receipt, STATEMENT) == statement
    requires Lookup(receipt, SIGNATURE) == String(sign(Canonicalize(statement)))
    requires Lookup(statement, VERSION) == RECEIPT_VERSION
    requires InWindow(dateOf(Lookup(statement, ISSUED_AT)), now, maxAge)
    ensures VerifyReceipt(receipt, check, dateOf, now, maxAge) == Valid(statement)
  {
    var signature := String(sign(Canonicalize(statement)));
    assert check(signature, Canonicalize(statement)) == Good;
    JudgeIsExact(true, true, Good, dateOf(Lookup(statement, ISSUED_AT)), now, maxAge, statement, statement);
  }

  lemma JudgeIsExact(present: bool, known: bool, signature: SignatureCheck, issuedAt: Option<int>, now: int,
                     maxAge: Option<int>, statement: Value, judged: Value)
    ensures Judge(present, known, signature, issuedAt, now, maxAge, statement) == Valid(judged)
      <==> present && known && signature == Good && InWindow(issuedAt, now, maxAge) && statement == judged
  {
  }

  /** Why a receipt is refused: the first check that fails, in the order of the reasons, names the reason. */
  lemma RefusedExactly(receipt: Value, check: (Value, Text) -> SignatureCheck, dateOf: Value -> Option<int>, now: int,
                       maxAge: Option<int>, statement: Value, signature: Value, verdict: ReceiptVerdict)
    requires statement == Lookup(receipt, STATEMENT) && signature == Lookup(receipt, SIGNATURE)
    requires verdict == VerifyReceipt(receipt, check, dateOf, now, maxAge)
    ensures verdict == Invalid(Malformed) <==> IsEmpty(receipt) || IsEmpty(statement) || IsEmpty(signature)
    ensures verdict == Invalid(UnsupportedVersion) ==> Lookup(statement, VERSION) != RECEIPT_VERSION
    ensures verdict == Invalid(SignatureNotBase64) ==> check(signature, Canonicalize(statement)) == NotBase64
    ensures verdict == Invalid(WrongSignature) ==> check(signature, Canonicalize(statement)) == Wrong
    ensures verdict == Invalid(NoTimestamp) ==> dateOf(Lookup(statement, ISSUED_AT)).None?
    ensures verdict.Invalid? && verdict.reason !in {Malformed, UnsupportedVersion} ==>
      Lookup(statement, VERSION) == RECEIPT_VERSION
    ensures verdict.Invalid? && verdict.reason in {NoTimestamp, FromTheFuture, TooOld} ==>
      check(signature, Canonicalize(statement)) == Good
    ensures verdict == Invalid(FromTheFuture) ==> dateOf(Lookup(statement, ISSUED_AT)).value > now + 300000
    ensures verdict == Invalid(TooOld) ==>
      maxAge.Some? && now - dateOf(Lookup(statement, ISSUED_AT)).value > maxAge.value
      && dateOf(Lookup(statement, ISSUED_AT)).value <= now + 300000
  {
    EmptyIsNotTruthy(receipt);
    EmptyIsNotTruthy(statement);
    EmptyIsNotTruthy(signature);
    JudgeRefuses(Truthy(receipt) && Truthy(statement) && Truthy(signature),
                 Lookup(statement, VERSION) == RECEIPT_VERSION, check(signature, Canonicalize(statement)),
                 dateOf(Lookup(statement, ISSUED_AT)), now, maxAge, statement, verdict);
  }

  lemma EmptyIsNotTruthy(v: Value)
    ensures Truthy(v) <==> !IsEmpty(v)
  {
  }

  lemma JudgeRefuses(present: bool, known: bool, signature: SignatureCheck, issuedAt: Option<int>, now: int,
                     maxAge: Option<int>, statement: Value, verdict: ReceiptVerdict)
    requires verdict == Judge(present, known, signature, issuedAt, now, maxAge, statement)
    ensures verdict == Invalid(Malformed) <==> !present
    ensures verdict == Invalid(UnsupportedVersion) ==> !known
    ensures verdict == Invalid(SignatureNotBase64) ==> signature == NotBase64
    ensures verdict == Invalid(WrongSignature) ==> signature == Wrong
    ensures verdict == Invalid(NoTimestamp) ==> issuedAt.None?
    ensures verdict.Invalid? && verdict.reason !in {Malformed, UnsupportedVersion} ==> known
    ensures verdict.Invalid? && verdict.reason in {NoTimestamp, FromTheFuture, TooOld} ==> signature == Good
    ensures verdict == Invalid(FromTheFuture) ==> issuedAt.Some? && issuedAt.value > now + 300000
    ensures verdict == Invalid(TooOld) ==>
      issuedAt.Some? && issuedAt.value <= now + 300000 && maxAge.Some? && now - issuedAt.value > maxAge.value
  {
  }

  lemma PlainPair(receipt: Value, statement: Value, signature: Value)
    requires receipt == Object([Member(STATEMENT, statement), Member(SIGNATURE, signature)])
    requires DistinctKeys(receipt.members) && Plain(statement) && Plain(signature)
    ensures Plain(receipt)
  {
  }

  /** A signature that verifies over a text no issued statement has. */
  ghost predicate Forged(check: (Value, Text) -> SignatureCheck, issued: set<Value>, signature: Value, text: Text) {
    check(signature, text) == Good && forall s :: s in issued ==> Canonicalize(s) != text
  }

  /**
   * A receipt that verifies says exactly what some issued statement says, or its own signature is forged; and it is
   * in the version the verifier knows, with a date in its window.
   */
  lemma ValidMeansIssued(receipt: Value, check: (Value, Text) -> SignatureCheck, dateOf: Value -> Option<int>,
                         now: int, maxAge: Option<int>, issued: set<Value>, statement: Value)
    requires forall s :: s in issued ==> Plain(s)
    requires VerifyReceipt(receipt, check, dateOf, now, maxAge) == Valid(statement) && Plain(statement)
    ensures (exists s :: s in issued && Same(statement, s))
      || Forged(check, issued, Lookup(receipt, SIGNATURE), Canonicalize(statement))
    ensures Lookup(statement, VERSION) == RECEIPT_VERSION && InWindow(dateOf(Lookup(statement, ISSUED_AT)), now, maxAge)
  {
    ValidIsSigned(receipt, check, dateOf, now, maxAge, statement, Lookup(receipt, SIGNATURE));
    if !Forged(check, issued, Lookup(receipt, SIGNATURE), Canonicalize(statement)) {
      SameTextWasIssued(issued, statement, Canonicalize(statement));
    }
  }

  lemma ValidIsSigned(receipt: Value, check: (Value, Text) -> SignatureCheck, dateOf: Value -> Option<int>, now: int,
                      maxAge: Option<int>, statement: Value, signature: Value)
    requires VerifyReceipt(receipt, check, dateOf, now, maxAge) == Valid(statement)
    requires signature == Lookup(receipt, SIGNATURE)
    ensures check(signature, Canonicalize(statement)) == Good
    ensures Lookup(statement, VERSION) == RECEIPT_VERSION && InWindow(dateOf(Lookup(statement, ISSUED_AT)), now, maxAge)
  {
    var stated := Lookup(receipt, STATEMENT);
    JudgeIsExact(Truthy(receipt) && Truthy(stated) && Truthy(signature), Lookup(stated, VERSION) == RECEIPT_VERSION,
                 check(signature, Canonicalize(stated)), dateOf(Lookup(stated, ISSUED_AT)), now, maxAge, stated,
                 statement);
  }

  lemma SameTextWasIssued(issued: set<Value>, statement: Value, text: Text)
    requires Plain(statement) && text == Canonicalize(statement) && forall s :: s in issued ==> Plain(s)
    requires exists s :: s in issued && Canonicalize(s) == text
    ensures exists s :: s in issued && Same(statement, s)
  {
    var s :| s in issued && Canonicalize(s) == text;
    CanonicalTextIsMeaning(statement, s);
  }
}
