/** Reading manifest JSON as hostile text (js/core/validate.js, parseManifestJson and assertNoPollution). */
module ManifestText {
  import opened Base64
  import opened Bytes
  import opened Chunker
  import opened Crypto
  import opened Doubles
  import opened Json
  import opened Manifest
  import opened Text
  import opened Validate
  import opened Wrappers
  import opened WriterMeetsReader

  /** What the reviver leaves of a parsed value: everything but the members under a forbidden key. */
  function Sanitised(j: Json): Json {
    match j
    case Arr(items) => Arr(seq(|items|, i requires 0 <= i < |items| => Sanitised(items[i])))
    case Obj(fields) => Obj(map key | key in fields && key !in FORBIDDEN_KEYS :: Sanitised(fields[key]))
    case _ => j
  }

  // ----- The walks -----

  /** Recursion in `Object.keys` order; the verdict does not depend on that order, so any will do. */
  method AssertNoPollution(value: Json) returns (r: Result<(), string>)
    ensures r.Err? <==> Polluted(value)
  {
    if value.Arr? {
      for i := 0 to |value.items|
        invariant forall k :: 0 <= k < i ==> !Polluted(value.items[k])
      {
        var item := AssertNoPollution(value.items[i]);
        if item.Err? {
          return item;
        }
      }
    } else if value.Obj? {
      var left := value.fields.Keys;
      while left != {}
        invariant left <= value.fields.Keys
        invariant forall key :: key in value.fields.Keys - left ==>
          key !in FORBIDDEN_KEYS && !Polluted(value.fields[key])
        decreases |left|
      {
        var key :| key in left;
        if key in FORBIDDEN_KEYS {
          return Err("forbidden key");
        }
        var field := AssertNoPollution(value.fields[key]);
        if field.Err? {
          return field;
        }
        left := left - {key};
      }
    }
    return Ok(());
  }

  /** The reviver: children first, then their forbidden keys are dropped and the shared flag is raised. */
  method Revive(value: Json, attackedSoFar: bool) returns (revived: Json, attacked: bool)
    ensures revived == Sanitised(value)
    ensures attacked == (attackedSoFar || Polluted(value))
    decreases value, 1
  {
    if value.Arr? {
      revived, attacked := ReviveItems(value, attackedSoFar);
    } else if value.Obj? {
      revived, attacked := ReviveMembers(value, attackedSoFar);
    } else {
      revived, attacked := value, attackedSoFar;
    }
  }

  method ReviveItems(value: Json, attackedSoFar: bool) returns (revived: Json, attacked: bool)
    requires value.Arr?
    ensures revived == Sanitised(value)
    ensures attacked == (attackedSoFar || Polluted(value))
    decreases value, 0
  {
    attacked := attackedSoFar;
    var kept: seq<Json> := [];
    for i := 0 to |value.items|
      invariant |kept| == i && forall k :: 0 <= k < i ==> kept[k] == Sanitised(value.items[k])
      invariant attacked == (attackedSoFar || exists k :: 0 <= k < i && Polluted(value.items[k]))
    {
      var item;
      item, attacked := Revive(value.items[i], attacked);
      kept := kept + [item];
    }
    revived := Arr(kept);
  }

  method ReviveMembers(value: Json, attackedSoFar: bool) returns (revived: Json, attacked: bool)
    requires value.Obj?
    ensures revived == Sanitised(value)
    ensures attacked == (attackedSoFar || Polluted(value))
    decreases value, 0
  {
    attacked := attackedSoFar;
    var fields := value.fields;
    var kept: map<string, Json> := map[];
    var left := fields.Keys;
    while left != {}
      invariant left <= fields.Keys
      invariant kept.Keys == fields.Keys - left - FORBIDDEN_KEYS
      invariant forall key :: key in kept ==> kept[key] == Sanitised(fields[key])
      invariant attacked == (attackedSoFar || OffenceIn(fields, fields.Keys - left))
      decreases |left|
    {
      var key :| key in left;
      var field;
      OneMoreKey(fields, fields.Keys - left, key);
      assert fields.Keys - (left - {key}) == fields.Keys - left + {key};
      field, attacked := Revive(fields[key], attacked);
      if key in FORBIDDEN_KEYS {
        attacked := true;
      } else {
        kept := kept[key := field];
      }
      left := left - {key};
    }
    assert fields.Keys - {} == fields.Keys;
    assert kept == Sanitised(value).fields;
    revived := Obj(kept);
  }

  predicate OffenceIn(fields: map<string, Json>, keys: set<string>)
    requires keys <= fields.Keys
  {
    exists key | key in keys :: key in FORBIDDEN_KEYS || Polluted(fields[key])
  }

  lemma OneMoreKey(fields: map<string, Json>, keys: set<string>, key: string)
    requires keys <= fields.Keys && key in fields
    ensures OffenceIn(fields, keys + {key})
       <==> OffenceIn(fields, keys) || key in FORBIDDEN_KEYS || Polluted(fields[key])
  {
    if OffenceIn(fields, keys) {
      var k :| k in keys && (k in FORBIDDEN_KEYS || Polluted(fields[k]));
      assert k in keys + {key};
    }
  }

  // ----- What the walks leave -----

  lemma {:induction false} CleanIsUntouched(j: Json)
    requires !Polluted(j)
    ensures Sanitised(j) == j
  {
    match j
    case Arr(items) =>
      forall i | 0 <= i < |items| ensures Sanitised(items[i]) == items[i] {
        CleanIsUntouched(items[i]);
      }
    case Obj(fields) =>
      forall key | key in fields ensures Sanitised(fields[key]) == fields[key] {
        CleanIsUntouched(fields[key]);
      }
      assert Sanitised(j).fields == fields;
    case _ =>
  }

  /** So the pollution check made after the reviver never fires: what the reviver leaves is clean in any case. */
  lemma {:induction false} SanitisedIsClean(j: Json)
    ensures !Polluted(Sanitised(j))
  {
    match j
    case Arr(items) =>
      forall i | 0 <= i < |items| ensures !Polluted(Sanitised(items[i])) {
        SanitisedIsClean(items[i]);
      }
    case Obj(fields) =>
      forall key | key in fields ensures !Polluted(Sanitised(fields[key])) {
        SanitisedIsClean(fields[key]);
      }
    case _ =>
  }

  // ----- The parser -----

  predicate Acceptable(parse: string -> Option<Json>, text: string) {
    Utf16Length(text) <= MANIFEST_LIMITS.maxManifestBytes
    && parse(text).Some? && parse(text).value.Obj? && !Polluted(parse(text).value)
  }

  /** Accepts a text exactly when it is a JSON object with no forbidden key at any depth, and changes nothing in it. */
  method ParseManifestJson(parse: string -> Option<Json>, text: string) returns (r: Result<Json, string>)
    ensures r.Ok? <==> Acceptable(parse, text)
    ensures r.Ok? ==> r.value == parse(text).value
  {
    if Utf16Length(text) > MANIFEST_LIMITS.maxManifestBytes {
      return Err("manifest is too large");
    }
    var parsed := parse(text);
    if parsed.None? {
      return Err("not valid JSON");
    }
    var manifest, attacked := Revive(parsed.value, false);
    if attacked {
      return Err("forbidden key");
    }
    CleanIsUntouched(parsed.value);
    if !manifest.Obj? {
      return Err("manifest must be a JSON object");
    }
    var again := AssertNoPollution(manifest);
    if again.Err? {
      return Err("forbidden key");
    }
    return Ok(manifest);
  }

  /** The bytes of a stored manifest, decoded, parsed and with their header validated. */
  method ReadManifest(p: Platform, bytes: Bytes, limits: Limits) returns (r: Result<Header, string>)
    ensures r.Ok? <==>
      Acceptable(p.parse, p.decode(bytes)) && ValidateManifestHeader(p.ParseBytes(bytes).value, limits).Ok?
    ensures r.Ok? ==> r == ValidateManifestHeader(p.ParseBytes(bytes).value, limits)
  {
    var manifest := ParseManifestJson(p.parse, p.decode(bytes));
    if manifest.Err? {
      return Err(manifest.error);
    }
    r := ValidateManifestHeader(manifest.value, limits);
  }

  // ----- The writer's own manifests -----

  lemma KdfJsonIsClean(kdf: Kdf, salt: string)
    ensures !Polluted(KdfJson(kdf, salt))
  {
    assert KdfJson(kdf, salt).fields.Keys <= {"name", "memoryKiB", "iterations", "parallelism", "salt"};
  }

  lemma WrappedJsonIsClean(iv: string, ciphertext: string)
    ensures !Polluted(WrappedJson(iv, ciphertext)) && HeldNumbers(WrappedJson(iv, ciphertext))
  {
    assert WrappedJson(iv, ciphertext).fields.Keys == {"iv", "ciphertext"};
  }

  predicate CleanFields(fields: map<string, Json>) {
    forall key :: key in fields ==> key !in FORBIDDEN_KEYS && !Polluted(fields[key])
  }

  lemma CleanFieldsJoin(a: map<string, Json>, b: map<string, Json>)
    requires CleanFields(a) && CleanFields(b)
    ensures !Polluted(Obj(a + b))
  {
  }

  lemma PublicFieldsAreClean(packed: Packed, createdAt: string)
    ensures CleanFields(PublicFields(packed, createdAt))
  {
    assert PublicFields(packed, createdAt).Keys
        == {"version", "envelope", "createdAt", "encrypted", "suite", "fileHash", "merkleRoot", "chunkSize",
            "totalChunks", "fileSize"};
  }

  lemma SecretMapIsClean(kdf: Json, fileSalt: string, wrappedKey: Json, body: string)
    requires !Polluted(kdf) && !Polluted(wrappedKey)
    ensures CleanFields(SecretMap(kdf, fileSalt, wrappedKey, body))
  {
    assert SecretMap(kdf, fileSalt, wrappedKey, body).Keys == {"kdf", "fileSalt", "wrappedKey", "body"};
  }

  lemma PlainBodyIsClean(body: Body)
    ensures CleanFields(map["body" := BodyJson(body)])
  {
    BodyJsonIsClean(body);
  }

  /** No sealed manifest is mistaken for an attack, whatever the file's name, its type or the locations spell. */
  lemma SealedManifestIsClean(p: Platform, packed: Packed, locations: seq<string>, iv: Bytes)
    requires FullLength(p.hkdf) && |packed.chunks| == packed.totalChunks
    requires SealManifest(p, packed, locations, iv).Ok?
    ensures !Polluted(SealManifest(p, packed, locations, iv).value)
  {
    var body := BodyOf(packed, locations);
    PublicFieldsAreClean(packed, p.clock);
    if packed.keys.Some? {
      var keys := packed.keys.value;
      var kdf := KdfJson(keys.kdf, ToBase64(keys.kdfSalt));
      var wrapped := WrappedJson(ToBase64(iv), ToBase64(WrappedKey(p, keys, iv)));
      KdfJsonIsClean(keys.kdf, ToBase64(keys.kdfSalt));
      WrappedJsonIsClean(ToBase64(iv), ToBase64(WrappedKey(p, keys, iv)));
      SecretMapIsClean(kdf, ToBase64(keys.fileSalt), wrapped, ToBase64(SealedBody(p, keys, body)));
      CleanFieldsJoin(PublicFields(packed, p.clock), SecretFields(p, keys, iv, body));
    } else {
      PlainBodyIsClean(body);
      CleanFieldsJoin(PublicFields(packed, p.clock), map["body" := BodyJson(body)]);
    }
  }

  // ----- The writer's own text -----

  ghost predicate HeldKdf(kdf: Kdf) {
    match kdf
    case Argon2id(memoryKiB, iterations, parallelism) =>
      memoryKiB as real in Held() && iterations as real in Held() && parallelism as real in Held()
    case Pbkdf2(iterations) => iterations as real in Held()
  }

  /** The numbers a caller passes to the writer are JavaScript's. */
  ghost predicate HeldOptions(o: Options) {
    o.chunkSize as real in Held() && (Encrypts(o) ==> HeldKdf(o.kdf))
  }

  lemma KdfJsonIsHeld(kdf: Kdf, salt: string)
    requires HeldKdf(kdf)
    ensures HeldNumbers(KdfJson(kdf, salt))
  {
    assert KdfJson(kdf, salt).fields.Keys <= {"name", "memoryKiB", "iterations", "parallelism", "salt"};
  }

  ghost predicate HeldFields(fields: map<string, Json>) {
    forall key :: key in fields ==> HeldNumbers(fields[key])
  }

  lemma HeldFieldsJoin(a: map<string, Json>, b: map<string, Json>)
    requires HeldFields(a) && HeldFields(b)
    ensures HeldNumbers(Obj(a + b))
  {
  }

  lemma PublicFieldsAreHeld(packed: Packed, createdAt: string)
    requires packed.chunkSize as real in Held() && packed.totalChunks as real in Held()
    requires packed.fileSize as real in Held()
    ensures HeldFields(PublicFields(packed, createdAt))
  {
    assert PublicFields(packed, createdAt).Keys
        == {"version", "envelope", "createdAt", "encrypted", "suite", "fileHash", "merkleRoot", "chunkSize",
            "totalChunks", "fileSize"};
  }

  lemma SecretMapIsHeld(kdf: Json, fileSalt: string, wrappedKey: Json, body: string)
    requires HeldNumbers(kdf) && HeldNumbers(wrappedKey)
    ensures HeldFields(SecretMap(kdf, fileSalt, wrappedKey, body))
  {
    assert SecretMap(kdf, fileSalt, wrappedKey, body).Keys == {"kdf", "fileSalt", "wrappedKey", "body"};
  }

  lemma PlainBodyIsHeld(body: Body)
    requires HeldEntries(body.chunks)
    ensures HeldFields(map["body" := BodyJson(body)])
  {
    BodyJsonIsHeld(body);
  }

  lemma SealedManifestIsHeld(p: Platform, packed: Packed, locations: seq<string>, iv: Bytes)
    requires FullLength(p.hkdf) && |packed.chunks| == packed.totalChunks
    requires SealManifest(p, packed, locations, iv).Ok? && HeldEntries(BodyOf(packed, locations).chunks)
    requires packed.chunkSize as real in Held() && packed.totalChunks as real in Held()
    requires packed.fileSize as real in Held() && (packed.keys.Some? ==> HeldKdf(packed.keys.value.kdf))
    ensures HeldNumbers(SealManifest(p, packed, locations, iv).value)
  {
    var body := BodyOf(packed, locations);
    PublicFieldsAreHeld(packed, p.clock);
    if packed.keys.Some? {
      var keys := packed.keys.value;
      var kdf := KdfJson(keys.kdf, ToBase64(keys.kdfSalt));
      var wrapped := WrappedJson(ToBase64(iv), ToBase64(WrappedKey(p, keys, iv)));
      KdfJsonIsHeld(keys.kdf, ToBase64(keys.kdfSalt));
      WrappedJsonIsClean(ToBase64(iv), ToBase64(WrappedKey(p, keys, iv)));
      SecretMapIsHeld(kdf, ToBase64(keys.fileSalt), wrapped, ToBase64(SealedBody(p, keys, body)));
      HeldFieldsJoin(PublicFields(packed, p.clock), SecretFields(p, keys, iv, body));
    } else {
      PlainBodyIsHeld(body);
      HeldFieldsJoin(PublicFields(packed, p.clock), map["body" := BodyJson(body)]);
    }
  }

  /**
   * The text of a sealed manifest, stored as UTF-8, is read back to the very header that was written, exactly if it is
   * not longer than a manifest may be.
   */
  lemma SealedTextIsRead(p: Platform, file: Bytes, o: Options, random: Random, locations: seq<string>, packed: Packed,
                         m: Json)
    requires LawfulPlatform(p) && Accepts(|file|, o) && Holdable(file, o) && HeldOptions(o) && RightSizes(random)
    requires packed == PackedOf(p, file, o, random) && |Chunks(file, o.chunkSize)| < EXACT
    requires Presentable(p, file, o, packed, locations) && SealManifest(p, packed, locations, random.iv) == Ok(m)
    ensures var bytes := Utf8(p.stringify(m));
      p.ParseBytes(bytes) == Some(m)
      && ValidateManifestHeader(m, o.limits) == Ok(HeaderOf(p, packed, locations, random.iv))
      && (Acceptable(p.parse, p.decode(bytes)) <==> Utf16Length(p.stringify(m)) <= MANIFEST_LIMITS.maxManifestBytes)
  {
    SealedManifestIsClean(p, packed, locations, random.iv);
    PackedEntriesAreHeld(p, file, o, random, locations);
    IntegersAreDoubles(|file|);
    IntegersAreDoubles(packed.totalChunks);
    SealedManifestIsHeld(p, packed, locations, random.iv);
    SealedManifestOpens(p, file, o, random, locations);
  }
}
