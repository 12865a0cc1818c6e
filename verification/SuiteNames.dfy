/**
 * The suite a manifest names is looked up in a plain object (js/core/suites.js, getSuite) and is neither part of the
 * sealed body nor of its additional data.
 */
module SuiteNames {
  import opened Bytes
  import opened ChunkTable
  import opened Crypto
  import opened Json
  import opened Manifest
  import opened PlainObject
  import opened Restore
  import opened RestoreTheorems
  import opened Suites
  import opened Text
  import opened Validate
  import opened Wrappers
  import opened WriterMeetsReader

  function Renamed(m: Json, name: string): Json
    requires m.Obj?
  {
    Obj(m.fields["suite" := Str(name)])
  }

  function RenamedHeader(h: Header, name: string): Header
    requires h.secrets.Some?
  {
    h.(secrets := Some(h.secrets.value.(suite := name)))
  }

  /** The lookup lets through no name too long for the header. */
  lemma PassingNameIsShort(name: string)
    requires PassesGetSuite(name)
    ensures RequireString(Str(name), 64) == Ok(name)
  {
    assert name in INHERITED ==> 0 < |name| <= 32;
    Utf16LengthBounds(name);
  }

  lemma RenamingKeepsFields(m: Json, name: string, key: string)
    requires m.Obj? && key != "suite"
    ensures Get(Renamed(m, name), key) == Get(m, key)
  {
  }

  lemma RenamedSecrets(m: Json, s: Secrets, name: string, limits: Limits)
    requires m.Obj? && PassesGetSuite(name) && SecretsDescribe(m, s, limits)
    ensures SecretsDescribe(Renamed(m, name), s.(suite := name), limits)
  {
    PassingNameIsShort(name);
    RenamingKeepsFields(m, name, "kdf");
    RenamingKeepsFields(m, name, "fileSalt");
    RenamingKeepsFields(m, name, "wrappedKey");
    RenamingKeepsFields(m, name, "body");
  }

  lemma RenamedPublic(m: Json, h: Header, name: string, limits: Limits)
    requires PublicDescribe(m, h, limits) && h.secrets.Some?
    ensures PublicDescribe(Renamed(m, name), RenamedHeader(h, name), limits)
  {
    RenamingKeepsFields(m, name, "version");
    RenamingKeepsFields(m, name, "fileHash");
    RenamingKeepsFields(m, name, "merkleRoot");
    RenamingKeepsFields(m, name, "encrypted");
    RenamingKeepsFields(m, name, "body");
    RenamingKeepsFields(m, name, "totalChunks");
    RenamingKeepsFields(m, name, "fileSize");
    RenamingKeepsFields(m, name, "chunkSize");
  }

  lemma RenamedHeaderValidates(m: Json, name: string, limits: Limits, h: Header)
    requires PassesGetSuite(name) && ValidateManifestHeader(m, limits) == Ok(h) && h.encrypted
    ensures m.Obj? && h.secrets.Some? && ValidateManifestHeader(Renamed(m, name), limits) == Ok(RenamedHeader(h, name))
  {
    HeaderIsExact(m, h, limits);
    RenamedSecrets(m, h.secrets.value, name, limits);
    RenamedPublic(m, h, name, limits);
    HeaderIsExact(Renamed(m, name), RenamedHeader(h, name), limits);
  }

  lemma UnwrappingIgnoresSuite(p: Platform, s: Secrets, name: string, passphrase: string)
    ensures UnwrapFileKey(p, s.(suite := name), passphrase) == UnwrapFileKey(p, s, passphrase)
  {
  }

  lemma RenamedHeaderUnseals(p: Platform, h: Header, name: string, passphrase: Option<string>)
    requires FullLength(p.hkdf) && h.encrypted && h.secrets.Some? && h.body.Str? && PassesGetSuite(name)
    requires Unseal(p, h, passphrase).Ok?
    ensures Unseal(p, RenamedHeader(h, name), passphrase) == Unseal(p, h, passphrase)
  {
    UnsealGuards(p, h, passphrase);
    UnwrappingIgnoresSuite(p, h.secrets.value, name, passphrase.value);
  }

  /** A manifest that opens opens just the same under every name that getSuite lets through, its own key and table. */
  lemma RenamedManifestOpens(p: Platform, m: Json, passphrase: Option<string>, limits: Limits, o: Opened, name: string)
    requires FullLength(p.hkdf) && OpensTo(p, m, passphrase, limits, o)
    requires ValidateManifestHeader(m, limits).value.encrypted && PassesGetSuite(name)
    ensures m.Obj? && OpensTo(p, Renamed(m, name), passphrase, limits, o)
  {
    var h := ValidateManifestHeader(m, limits).value;
    RenamedHeaderValidates(m, name, limits, h);
    RenamedHeaderUnseals(p, h, name, passphrase);
    SameTable(Unseal(p, h, passphrase).value.1, o.body, h, RenamedHeader(h, name), limits);
  }

  lemma SameTable(j: Json, b: Body, h: Header, other: Header, limits: Limits)
    requires h.totalChunks > 0 && Describes(j, b, h, limits)
    requires other.totalChunks == h.totalChunks && other.fileSize == h.fileSize && other.chunkSize == h.chunkSize
    ensures Describes(j, b, other, limits)
  {
    assert ParseTo(Get(j, "chunks").items, b.chunks, other, limits);
  }

  /** A manifest whose suite is not one of the table's own yields no chunk, whatever storage replies. */
  lemma NoCipherYieldsNothing(p: Platform, m: Json, o: Opened, fetch: Entry -> Reply, expected: string,
                              limits: Limits, signalAt: Option<nat>)
    requires FullLength(p.hkdf) && ValidateManifestHeader(m, limits).Ok?
    requires ValidateManifestHeader(m, limits).value.encrypted
    requires GetSuite(ValidateManifestHeader(m, limits).value.secrets.value.suite).None?
    ensures StreamResult(p, m, o, fetch, expected, limits, signalAt).yielded == []
  {
    var s := StreamResult(p, m, o, fetch, expected, limits, signalAt);
    if s.yielded != [] {
      YieldedChunksAreChecked(p, m, o, fetch, expected, limits, signalAt, s, 0);
      NothingDecrypts(p, ValidateManifestHeader(m, limits).value, o.keys, Sorted(o.body.chunks)[0].index,
                      fetch(Sorted(o.body.chunks)[0]).bytes);
    }
  }

  lemma NothingDecrypts(p: Platform, h: Header, keys: Option<OpenKeys>, index: nat, payload: Bytes)
    requires FullLength(p.hkdf) && h.encrypted && h.secrets.Some? && GetSuite(h.secrets.value.suite).None?
    ensures Decrypted(p, h, keys, index, payload).Err?
  {
  }

  /**
   * So openManifest does not promise a usable suite: with its suite renamed to any inherited name, every encrypted
   * manifest that opens still opens, to the same key and table, and never yields a chunk.
   */
  lemma InheritedNameOpensToNothing(p: Platform, m: Json, passphrase: Option<string>, limits: Limits, o: Opened,
                                    name: string, fetch: Entry -> Reply, expected: string, signalAt: Option<nat>)
    requires FullLength(p.hkdf) && OpensTo(p, m, passphrase, limits, o)
    requires ValidateManifestHeader(m, limits).value.encrypted && name in INHERITED
    ensures m.Obj? && OpensTo(p, Renamed(m, name), passphrase, limits, o)
    ensures StreamResult(p, Renamed(m, name), o, fetch, expected, limits, signalAt).yielded == []
  {
    RenamedManifestOpens(p, m, passphrase, limits, o, name);
    RenamedYieldsNothing(p, m, o, name, fetch, expected, limits, signalAt, ValidateManifestHeader(m, limits).value);
  }

  lemma RenamedYieldsNothing(p: Platform, m: Json, o: Opened, name: string, fetch: Entry -> Reply, expected: string,
                             limits: Limits, signalAt: Option<nat>, h: Header)
    requires FullLength(p.hkdf) && ValidateManifestHeader(m, limits) == Ok(h) && h.encrypted && name in INHERITED
    ensures m.Obj? && StreamResult(p, Renamed(m, name), o, fetch, expected, limits, signalAt).yielded == []
  {
    RenamedHeaderValidates(m, name, limits, h);
    InheritedIsNoCipher(name);
    NoCipherYieldsNothing(p, Renamed(m, name), o, fetch, expected, limits, signalAt);
  }

  lemma InheritedIsNoCipher(name: string)
    requires name in INHERITED
    ensures GetSuite(name).None? && PassesGetSuite(name)
  {
  }
}
