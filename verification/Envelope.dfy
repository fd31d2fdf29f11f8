/**
 The secret envelope: a fresh data key encrypts a value, a root key wraps the data key, and both
 ciphertexts are framed as `naenc:v1:<key id>:<base64url>:<base64url>`.
 AES-256-GCM (NIST SP 800-38D) is a parameter; `Correct` is all that is asked of it.
 */
module Envelope {
  import opened Prelude
  import opened Text
  import opened Base64

  const NAME := Ascii("naenc")
  const PREFIX := Ascii("naenc:")
  const VERSION := Ascii("v1")
  const COLON: byte := 58
  const KEY_SIZE := 32
  const KEY_ID_MAX_LENGTH := 32
  const NONCE_SIZE := 12
  const TAG_SIZE := 16

  function Zeros(n: nat): (b: Bytes)
    ensures |b| == n
  {
    if n == 0 then [] else [0] + Zeros(n - 1)
  }

  type Key = k: Bytes | |k| == KEY_SIZE witness Zeros(KEY_SIZE)
  type Nonce = n: Bytes | |n| == NONCE_SIZE witness Zeros(NONCE_SIZE)

  const ZERO_KEY: Key := Zeros(KEY_SIZE)

  // ----- The authenticated cipher

  datatype Aead = Aead(
    seal: (Key, Nonce, Bytes, Bytes) -> Bytes,
    open: (Key, Nonce, Bytes, Bytes) -> Option<Bytes>)

  /** Opening undoes sealing, and a ciphertext is longer than its plaintext by the tag. */
  ghost predicate Correct(a: Aead) {
    && (forall k: Key, n: Nonce, p: Bytes, ad: Bytes {:trigger a.seal(k, n, p, ad)} ::
          |a.seal(k, n, p, ad)| == |p| + TAG_SIZE && a.open(k, n, a.seal(k, n, p, ad), ad) == Some(p))
    && (forall k: Key, n: Nonce, c: Bytes, ad: Bytes {:trigger a.open(k, n, c, ad)} ::
          a.open(k, n, c, ad).Some? ==> |c| == |a.open(k, n, c, ad).value| + TAG_SIZE)
  }

  /** A cipher without secrecy that meets `Correct`, so the assumption is not empty. */
  function PlainCipher(): Aead {
    Aead(
      (k, n, p, ad) => p + Zeros(TAG_SIZE),
      (k, n, c, ad) =>
        if |c| >= TAG_SIZE && c[|c| - TAG_SIZE..] == Zeros(TAG_SIZE) then Some(c[..|c| - TAG_SIZE]) else None)
  }

  lemma PlainCipherIsCorrect()
    ensures Correct(PlainCipher())
  {
    var a := PlainCipher();
    forall k: Key, n: Nonce, p: Bytes, ad: Bytes
      ensures |a.seal(k, n, p, ad)| == |p| + TAG_SIZE && a.open(k, n, a.seal(k, n, p, ad), ad) == Some(p)
    {
      var c := a.seal(k, n, p, ad);
      assert c[|c| - TAG_SIZE..] == Zeros(TAG_SIZE) && c[..|c| - TAG_SIZE] == p;
    }
  }

  function SealBytes(a: Aead, key: Key, nonce: Nonce, plaintext: Bytes, aad: Bytes): Bytes {
    nonce + a.seal(key, nonce, plaintext, aad)
  }

  function OpenBytes(a: Aead, key: Key, payload: Bytes, aad: Bytes): Option<Bytes> {
    if |payload| < NONCE_SIZE + TAG_SIZE then None
    else a.open(key, payload[..NONCE_SIZE], payload[NONCE_SIZE..], aad)
  }

  lemma OpenBytesUndoesSealBytes(a: Aead, key: Key, nonce: Nonce, plaintext: Bytes, aad: Bytes)
    requires Correct(a)
    ensures |SealBytes(a, key, nonce, plaintext, aad)| == NONCE_SIZE + |plaintext| + TAG_SIZE
    ensures OpenBytes(a, key, SealBytes(a, key, nonce, plaintext, aad), aad) == Some(plaintext)
  {
    var payload := SealBytes(a, key, nonce, plaintext, aad);
    assert payload[..NONCE_SIZE] == nonce;
    assert payload[NONCE_SIZE..] == a.seal(key, nonce, plaintext, aad);
  }

  // ----- Associated data

  const PAYLOAD_AAD := Ascii("new-api:data-encryption:v1:payload:")
  const WRAP_AAD := Ascii("new-api:data-encryption:v1:wrap:")

  function PayloadAad(domain: Bytes): Bytes {
    PAYLOAD_AAD + domain
  }

  function WrapAad(domain: Bytes, keyID: Bytes): Bytes {
    WRAP_AAD + domain + [COLON] + keyID
  }

  // ----- Key identifiers

  predicate KeyIDByte(c: byte) {
    97 <= c <= 122 || 65 <= c <= 90 || 48 <= c <= 57 || c == 45 || c == 95
  }

  predicate ValidKeyID(keyID: Bytes) {
    0 < |keyID| <= KEY_ID_MAX_LENGTH && forall i :: 0 <= i < |keyID| ==> KeyIDByte(keyID[i])
  }

  /** An identifier has one to 32 characters, each a letter, a digit, a hyphen or an underscore. */
  lemma ValidKeyIDMeans(keyID: Bytes)
    ensures ValidKeyID(keyID)
       <==> && 1 <= |keyID| <= 32
            && forall i :: 0 <= i < |keyID| ==>
                 || 'a' as int <= keyID[i] <= 'z' as int || 'A' as int <= keyID[i] <= 'Z' as int
                 || '0' as int <= keyID[i] <= '9' as int || keyID[i] in [45, 95]
  {
  }

  // ----- Configuration

  datatype Config = Config(enabled: bool, activeKeyID: Bytes, keys: map<Bytes, Key>)

  /** What a successful `InitDataEncryption` guarantees: no keys at all, or valid identifiers with the active one present. */
  ghost predicate ValidConfig(cfg: Config) {
    if cfg.keys == map[] then cfg.activeKeyID == []
    else cfg.activeKeyID in cfg.keys && forall id :: id in cfg.keys ==> ValidKeyID(id)
  }

  // ----- The text framing

  datatype Parsed = Parsed(keyID: Bytes, wrappedKey: Bytes, dataPayload: Bytes)

  datatype Error =
    | KeyringUnavailable
    | MalformedHeader
    | MalformedWrappedKey
    | MalformedPayload
    | InvalidWrappedKeyLength
    | InvalidPayloadLength
    | PlaintextNotPermitted
    | KeyUnavailable
    | WrappedKeyNotAuthentic
    | ValueNotAuthentic
    | ActiveKeyUnavailable

  predicate IsEnvelope(stored: Bytes) {
    PREFIX <= stored
  }

  function Print(p: Parsed): Bytes {
    Join([NAME, VERSION, p.keyID, EncodeRaw(Url, p.wrappedKey), EncodeRaw(Url, p.dataPayload)], COLON)
  }

  /** `None` is a value that is not an envelope at all. */
  function Parse(stored: Bytes): Result<Option<Parsed>, Error> {
    if !IsEnvelope(stored) then Ok(None)
    else
      var parts := Split(stored, COLON);
      if |parts| != 5 || parts[0] != NAME || parts[1] != VERSION || !ValidKeyID(parts[2]) then Err(MalformedHeader)
      else
        match DecodeRaw(Url, parts[3])
        case None => Err(MalformedWrappedKey)
        case Some(wrappedKey) =>
          match DecodeRaw(Url, parts[4])
          case None => Err(MalformedPayload)
          case Some(dataPayload) =>
            if |wrappedKey| != NONCE_SIZE + KEY_SIZE + TAG_SIZE then Err(InvalidWrappedKeyLength)
            else if |dataPayload| < NONCE_SIZE + TAG_SIZE then Err(InvalidPayloadLength)
            else Ok(Some(Parsed(parts[2], wrappedKey, dataPayload)))
  }

  ghost predicate WellFormed(p: Parsed) {
    && ValidKeyID(p.keyID)
    && |p.wrappedKey| == NONCE_SIZE + KEY_SIZE + TAG_SIZE
    && |p.dataPayload| >= NONCE_SIZE + TAG_SIZE
  }

  // ----- Seal, open and rewrap

  /** The random bytes one seal draws. */
  datatype Random = Random(dataKey: Key, payloadNonce: Nonce, wrapNonce: Nonce)

  /** Reading a missing key of a Go map yields the zero array. */
  function ActiveKey(cfg: Config): Key {
    if cfg.activeKeyID in cfg.keys then cfg.keys[cfg.activeKeyID] else ZERO_KEY
  }

  function SealWith(a: Aead, cfg: Config, domain: Bytes, plaintext: Bytes, rnd: Random): Result<Bytes, Error> {
    if |cfg.keys| == 0 || cfg.activeKeyID == [] then Err(KeyringUnavailable)
    else
      var dataPayload := SealBytes(a, rnd.dataKey, rnd.payloadNonce, plaintext, PayloadAad(domain));
      var wrappedKey := SealBytes(a, ActiveKey(cfg), rnd.wrapNonce, rnd.dataKey, WrapAad(domain, cfg.activeKeyID));
      Ok(Print(Parsed(cfg.activeKeyID, wrappedKey, dataPayload)))
  }

  /** `SealDataEncryptionValue`: plaintext passes through while encryption is disabled. */
  function Seal(a: Aead, cfg: Config, domain: Bytes, plaintext: Bytes, rnd: Random): Result<Bytes, Error> {
    if plaintext == [] then Ok([])
    else if !cfg.enabled then Ok(plaintext)
    else SealWith(a, cfg, domain, plaintext, rnd)
  }

  /** `SealDataEncryptionValueRequired`: encrypts whether or not encryption is enabled. */
  function SealRequired(a: Aead, cfg: Config, domain: Bytes, plaintext: Bytes, rnd: Random): Result<Bytes, Error> {
    if plaintext == [] then Ok([])
    else SealWith(a, cfg, domain, plaintext, rnd)
  }

  function Unwrap(a: Aead, cfg: Config, domain: Bytes, p: Parsed): Result<Key, Error> {
    if p.keyID !in cfg.keys then Err(KeyUnavailable)
    else
      match OpenBytes(a, cfg.keys[p.keyID], p.wrappedKey, WrapAad(domain, p.keyID))
      case None => Err(WrappedKeyNotAuthentic)
      case Some(k) => if |k| != KEY_SIZE then Err(WrappedKeyNotAuthentic) else Ok(k)
  }

  /** What opening yields: the plaintext, and the identifier of the key that wrapped it, if any did. */
  datatype Opened = Opened(plaintext: Bytes, keyID: Option<Bytes>)

  /** `openDataEncryptionValue`; `allowLegacy` is the reader of the startup migration. */
  function Open(a: Aead, cfg: Config, domain: Bytes, stored: Bytes, allowLegacy: bool): Result<Opened, Error> {
    if stored == [] then Ok(Opened([], None))
    else
      match Parse(stored)
      case Err(e) => Err(e)
      case Ok(None) =>
        if cfg.enabled && !allowLegacy then Err(PlaintextNotPermitted) else Ok(Opened(stored, None))
      case Ok(Some(p)) =>
        match Unwrap(a, cfg, domain, p)
        case Err(e) => Err(e)
        case Ok(dataKey) =>
          match OpenBytes(a, dataKey, p.dataPayload, PayloadAad(domain))
          case None => Err(ValueNotAuthentic)
          case Some(plaintext) => Ok(Opened(plaintext, Some(p.keyID)))
  }

  /** `RewrapDataEncryptionValue`: the value to store and whether it differs from the one given. */
  function Rewrap(a: Aead, cfg: Config, domain: Bytes, stored: Bytes, rnd: Random): Result<(Bytes, bool), Error> {
    if stored == [] then Ok(([], false))
    else
      match Parse(stored)
      case Err(e) => Err(e)
      case Ok(None) =>
        (match Seal(a, cfg, domain, stored, rnd)
         case Err(e) => Err(e)
         case Ok(sealed) => Ok((sealed, sealed != stored)))
      case Ok(Some(p)) =>
        match Unwrap(a, cfg, domain, p)
        case Err(e) => Err(e)
        case Ok(dataKey) =>
          if OpenBytes(a, dataKey, p.dataPayload, PayloadAad(domain)).None? then Err(ValueNotAuthentic)
          else if !cfg.enabled || p.keyID == cfg.activeKeyID then Ok((stored, false))
          else if cfg.activeKeyID !in cfg.keys || cfg.activeKeyID == [] then Err(ActiveKeyUnavailable)
          else
            var wrappedKey :=
              SealBytes(a, cfg.keys[cfg.activeKeyID], rnd.wrapNonce, dataKey, WrapAad(domain, cfg.activeKeyID));
            Ok((Print(Parsed(cfg.activeKeyID, wrappedKey, p.dataPayload)), true))
  }

  // ----- Parsing undoes printing

  lemma PrintedFieldsHoldNoColon(p: Parsed)
    requires ValidKeyID(p.keyID)
    ensures COLON !in NAME && COLON !in VERSION && COLON !in p.keyID
    ensures COLON !in EncodeRaw(Url, p.wrappedKey) && COLON !in EncodeRaw(Url, p.dataPayload)
  {
    EncodedTextIsDigits(Url, p.wrappedKey);
    EncodedTextIsDigits(Url, p.dataPayload);
  }

  /** Printed text is an envelope, and its five parts are the fields that were printed. */
  lemma PrintedTextSplits(p: Parsed)
    requires ValidKeyID(p.keyID)
    ensures IsEnvelope(Print(p))
    ensures Split(Print(p), COLON)
         == [NAME, VERSION, p.keyID, EncodeRaw(Url, p.wrappedKey), EncodeRaw(Url, p.dataPayload)]
  {
    PrintedFieldsHoldNoColon(p);
    var parts := [NAME, VERSION, p.keyID, EncodeRaw(Url, p.wrappedKey), EncodeRaw(Url, p.dataPayload)];
    SplitJoin(parts, COLON);
    assert Print(p) == NAME + [COLON] + Join(parts[1..], COLON);
    assert PREFIX == NAME + [COLON];
  }

  /** Parsing a printed envelope gives back the envelope: every length check passes. */
  lemma ParseUndoesPrint(p: Parsed)
    requires WellFormed(p)
    ensures Parse(Print(p)) == Ok(Some(p))
  {
    PrintedTextSplits(p);
    DecodeUndoesEncode(Url, p.wrappedKey);
    DecodeUndoesEncode(Url, p.dataPayload);
  }

  /** Whatever parses is well formed, also when it was not printed by this program. */
  lemma ParsedIsWellFormed(stored: Bytes)
    requires Parse(stored).Ok? && Parse(stored).value.Some?
    ensures WellFormed(Parse(stored).value.value)
  {
  }

  /**
   Exactly the texts that parse: the literal header, a valid identifier, and two fields without a colon that decode to 60
   bytes and to at least 28.
   */
  lemma ParsesIff(stored: Bytes, p: Parsed)
    ensures Parse(stored) == Ok(Some(p))
       <==> exists x: Bytes, y: Bytes ::
              && stored == Ascii("naenc:v1:") + p.keyID + Ascii(":") + x + Ascii(":") + y
              && COLON !in x && COLON !in y && ValidKeyID(p.keyID)
              && DecodeRaw(Url, x) == Some(p.wrappedKey) && DecodeRaw(Url, y) == Some(p.dataPayload)
              && |p.wrappedKey| == 60 && |p.dataPayload| >= 28
  {
    hide DecodeRaw, Split;
    if Parse(stored) == Ok(Some(p)) {
      var parts := Split(stored, COLON);
      JoinSplit(stored, COLON);
      FiveFields(p.keyID, parts[3], parts[4]);
      assert parts == [NAME, VERSION, p.keyID, parts[3], parts[4]];
    }
    if x: Bytes, y: Bytes :|
         && stored == Ascii("naenc:v1:") + p.keyID + Ascii(":") + x + Ascii(":") + y
         && COLON !in x && COLON !in y && ValidKeyID(p.keyID)
         && DecodeRaw(Url, x) == Some(p.wrappedKey) && DecodeRaw(Url, y) == Some(p.dataPayload)
         && |p.wrappedKey| == 60 && |p.dataPayload| >= 28
    {
      FiveFields(p.keyID, x, y);
      SplitJoin([NAME, VERSION, p.keyID, x, y], COLON);
      assert stored[..6] == PREFIX;
    }
  }

  lemma JoinCons(first: Bytes, rest: seq<Bytes>)
    requires rest != []
    ensures Join([first] + rest, COLON) == first + [COLON] + Join(rest, COLON)
  {
    assert ([first] + rest)[1..] == rest;
  }

  lemma FiveFields(id: Bytes, w: Bytes, d: Bytes)
    ensures Join([NAME, VERSION, id, w, d], COLON) == Ascii("naenc:v1:") + id + Ascii(":") + w + Ascii(":") + d
  {
    JoinCons(w, [d]);
    JoinCons(id, [w, d]);
    JoinCons(VERSION, [id, w, d]);
    JoinCons(NAME, [VERSION, id, w, d]);
    var three := id + [COLON] + (w + [COLON] + d);
    assert Join([NAME, VERSION, id, w, d], COLON) == NAME + [COLON] + (VERSION + [COLON] + three) by {
      assert [NAME] + [VERSION, id, w, d] == [NAME, VERSION, id, w, d];
      assert [VERSION] + [id, w, d] == [VERSION, id, w, d];
      assert [id] + [w, d] == [id, w, d] && [w] + [d] == [w, d];
    }
    assert Ascii(":") == [COLON] && Ascii("naenc:v1:") == NAME + [COLON] + (VERSION + [COLON]);
    assert NAME + [COLON] + (VERSION + [COLON] + three) == (NAME + [COLON] + (VERSION + [COLON])) + three;
    assert Ascii("naenc:v1:") + three == Ascii("naenc:v1:") + id + Ascii(":") + w + Ascii(":") + d;
  }

  // ----- Opening undoes sealing

  /** A value sealed with a root key opens under every configuration that still has that key. */
  lemma OpenUndoesSeal(a: Aead, cfg: Config, later: Config, domain: Bytes, plaintext: Bytes, rnd: Random, allowLegacy: bool)
    requires Correct(a) && ValidConfig(cfg) && cfg.keys != map[]
    requires cfg.activeKeyID in later.keys && later.keys[cfg.activeKeyID] == cfg.keys[cfg.activeKeyID]
    ensures SealWith(a, cfg, domain, plaintext, rnd).Ok?
    ensures var stored := SealWith(a, cfg, domain, plaintext, rnd).value;
            && Open(a, later, domain, stored, allowLegacy) == Ok(Opened(plaintext, Some(cfg.activeKeyID)))
            && IsEnvelope(stored)
  {
    var rootKey := cfg.keys[cfg.activeKeyID];
    OpenBytesUndoesSealBytes(a, rnd.dataKey, rnd.payloadNonce, plaintext, PayloadAad(domain));
    OpenBytesUndoesSealBytes(a, rootKey, rnd.wrapNonce, rnd.dataKey, WrapAad(domain, cfg.activeKeyID));
    var p := Parsed(cfg.activeKeyID,
                    SealBytes(a, rootKey, rnd.wrapNonce, rnd.dataKey, WrapAad(domain, cfg.activeKeyID)),
                    SealBytes(a, rnd.dataKey, rnd.payloadNonce, plaintext, PayloadAad(domain)));
    PrintedTextSplits(p);
    ParseUndoesPrint(p);
  }

  /**
   What a sealed value looks like, byte for byte: header, identifier, and two base64 fields of 12 bytes of nonce and 16
   of tag around the 32-byte data key and the value.  It is sealed whether or not encryption is enabled.
   */
  lemma SealedTextMeans(a: Aead, cfg: Config, domain: Bytes, plaintext: Bytes, rnd: Random)
    requires Correct(a) && ValidConfig(cfg) && plaintext != []
    ensures cfg.keys == map[] ==> SealRequired(a, cfg, domain, plaintext, rnd) == Err(KeyringUnavailable)
    ensures cfg.keys != map[] ==>
              var payloadAad, wrapAad := Ascii("new-api:data-encryption:v1:payload:") + domain,
                                         Ascii("new-api:data-encryption:v1:wrap:") + domain + Ascii(":") + cfg.activeKeyID;
              var wrapped := rnd.wrapNonce + a.seal(cfg.keys[cfg.activeKeyID], rnd.wrapNonce, rnd.dataKey, wrapAad);
              var payload := rnd.payloadNonce + a.seal(rnd.dataKey, rnd.payloadNonce, plaintext, payloadAad);
              && |wrapped| == 12 + 32 + 16 && |payload| == 12 + |plaintext| + 16
              && SealRequired(a, cfg, domain, plaintext, rnd)
                 == Ok(Ascii("naenc:v1:") + cfg.activeKeyID + Ascii(":") + EncodeRaw(Url, wrapped) + Ascii(":") + EncodeRaw(Url, payload))
    ensures cfg.enabled ==> Seal(a, cfg, domain, plaintext, rnd) == SealRequired(a, cfg, domain, plaintext, rnd)
  {
    if cfg.keys != map[] {
      var wrapAad := Ascii("new-api:data-encryption:v1:wrap:") + domain + Ascii(":") + cfg.activeKeyID;
      assert Ascii(":") == [COLON];
      assert WrapAad(domain, cfg.activeKeyID) == wrapAad;
      hide EncodeRaw, Correct;
      PrintMeans(Parsed(cfg.activeKeyID,
                        SealBytes(a, cfg.keys[cfg.activeKeyID], rnd.wrapNonce, rnd.dataKey, wrapAad),
                        SealBytes(a, rnd.dataKey, rnd.payloadNonce, plaintext, PayloadAad(domain))));
      OpenBytesUndoesSealBytes(a, cfg.keys[cfg.activeKeyID], rnd.wrapNonce, rnd.dataKey, wrapAad);
      OpenBytesUndoesSealBytes(a, rnd.dataKey, rnd.payloadNonce, plaintext, PayloadAad(domain));
    }
  }

  lemma PrintMeans(p: Parsed)
    ensures Print(p)
         == Ascii("naenc:v1:") + p.keyID + Ascii(":") + EncodeRaw(Url, p.wrappedKey) + Ascii(":") + EncodeRaw(Url, p.dataPayload)
  {
    hide EncodeRaw;
    FiveFields(p.keyID, EncodeRaw(Url, p.wrappedKey), EncodeRaw(Url, p.dataPayload));
  }

  // ----- Rewrapping

  ghost function PayloadOf(stored: Bytes): Option<Bytes> {
    match Parse(stored)
    case Ok(Some(p)) => Some(p.dataPayload)
    case _ => None
  }

  /**
   Rewrapping fails exactly when the migration reader does, or when plaintext has to be sealed and
   there is no key to seal it with.
   */
  lemma RewrapSucceedsIff(a: Aead, cfg: Config, domain: Bytes, stored: Bytes, rnd: Random)
    requires Correct(a) && ValidConfig(cfg)
    ensures Rewrap(a, cfg, domain, stored, rnd).Ok?
       <==> && Open(a, cfg, domain, stored, true).Ok?
            && (stored != [] && !IsEnvelope(stored) && cfg.enabled ==> cfg.keys != map[])
  {
    if stored != [] && Parse(stored) == Ok(None) && cfg.enabled && cfg.keys != map[] {
      OpenUndoesSeal(a, cfg, cfg, domain, stored, rnd, false);
    }
  }

  /** A changed envelope carries the old payload and opens to the old plaintext under the active key. */
  lemma RewrapOfEnvelope(a: Aead, cfg: Config, domain: Bytes, stored: Bytes, rnd: Random, p: Parsed, dataKey: Key)
    requires Correct(a) && ValidConfig(cfg) && cfg.keys != map[] && cfg.enabled
    requires stored != [] && Parse(stored) == Ok(Some(p)) && p.keyID != cfg.activeKeyID
    requires Unwrap(a, cfg, domain, p) == Ok(dataKey) && Open(a, cfg, domain, stored, true).Ok?
    ensures var wrapped := SealBytes(a, cfg.keys[cfg.activeKeyID], rnd.wrapNonce, dataKey, WrapAad(domain, cfg.activeKeyID));
            var q := Parsed(cfg.activeKeyID, wrapped, p.dataPayload);
            && Rewrap(a, cfg, domain, stored, rnd) == Ok((Print(q), true))
            && Parse(Print(q)) == Ok(Some(q)) && IsEnvelope(Print(q))
            && Unwrap(a, cfg, domain, q) == Ok(dataKey)
  {
    ParsedIsWellFormed(stored);
    OpenBytesUndoesSealBytes(a, cfg.keys[cfg.activeKeyID], rnd.wrapNonce, dataKey, WrapAad(domain, cfg.activeKeyID));
    var q := Parsed(cfg.activeKeyID,
                    SealBytes(a, cfg.keys[cfg.activeKeyID], rnd.wrapNonce, dataKey, WrapAad(domain, cfg.activeKeyID)),
                    p.dataPayload);
    ParseUndoesPrint(q);
    PrintedTextSplits(q);
  }

  /**
   With encryption enabled, rewrapping any value the migration reader accepts keeps its plaintext, leaves it
   readable at run time under the active key, keeps the payload ciphertext of an envelope, reports a change
   exactly when the active key did not wrap it, and has nothing left to do the second time.
   */
  lemma RewrapMovesToActiveKey(a: Aead, cfg: Config, domain: Bytes, stored: Bytes, rnd: Random, again: Random)
    requires Correct(a) && ValidConfig(cfg) && cfg.enabled && cfg.keys != map[]
    requires Open(a, cfg, domain, stored, true).Ok?
    ensures Rewrap(a, cfg, domain, stored, rnd).Ok?
    ensures var before := Open(a, cfg, domain, stored, true).value;
            var (after, changed) := Rewrap(a, cfg, domain, stored, rnd).value;
            && (forall allowLegacy ::
                  Open(a, cfg, domain, after, allowLegacy)
                  == Ok(Opened(before.plaintext, if stored == [] then None else Some(cfg.activeKeyID))))
            && (stored != [] ==> IsEnvelope(after))
            && (IsEnvelope(stored) ==> PayloadOf(after) == PayloadOf(stored))
            && (changed <==> stored != [] && before.keyID != Some(cfg.activeKeyID))
            && (!changed ==> after == stored)
            && Rewrap(a, cfg, domain, after, again) == Ok((after, false))
  {
    if stored != [] {
      match Parse(stored)
      case Ok(None) =>
        OpenUndoesSeal(a, cfg, cfg, domain, stored, rnd, false);
        OpenUndoesSeal(a, cfg, cfg, domain, stored, rnd, true);
      case Ok(Some(p)) =>
        if p.keyID != cfg.activeKeyID {
          RewrapOfEnvelope(a, cfg, domain, stored, rnd, p, Unwrap(a, cfg, domain, p).value);
        }
    }
  }

  /** Whatever the configuration, rewrapping never changes what the migration reader sees. */
  lemma RewrapKeepsPlaintext(a: Aead, cfg: Config, domain: Bytes, stored: Bytes, rnd: Random)
    requires Correct(a) && ValidConfig(cfg) && Rewrap(a, cfg, domain, stored, rnd).Ok?
    ensures Open(a, cfg, domain, stored, true).Ok?
    ensures var after := Open(a, cfg, domain, Rewrap(a, cfg, domain, stored, rnd).value.0, true);
            after.Ok? && after.value.plaintext == Open(a, cfg, domain, stored, true).value.plaintext
  {
    RewrapSucceedsIff(a, cfg, domain, stored, rnd);
    if cfg.enabled && cfg.keys != map[] {
      RewrapMovesToActiveKey(a, cfg, domain, stored, rnd, rnd);
    }
  }

  /** While encryption is disabled, rewrapping only checks: it stores nothing new. */
  lemma RewrapWhileDisabled(a: Aead, cfg: Config, domain: Bytes, stored: Bytes, rnd: Random)
    requires !cfg.enabled
    ensures Rewrap(a, cfg, domain, stored, rnd)
         == match Open(a, cfg, domain, stored, true)
            case Ok(_) => Ok((stored, false))
            case Err(e) => Err(e)
  {
  }

  /** Why a value is refused: plaintext under enforcement, or an envelope whose root key is not in the ring. */
  lemma RefusedMeans(a: Aead, cfg: Config, domain: Bytes, stored: Bytes, allowLegacy: bool)
    ensures Open(a, cfg, domain, stored, allowLegacy) == Err(PlaintextNotPermitted)
       <==> stored != [] && !(Ascii("naenc:") <= stored) && cfg.enabled && !allowLegacy
    ensures Open(a, cfg, domain, stored, allowLegacy) == Err(KeyUnavailable)
       <==> Parse(stored).Ok? && Parse(stored).value.Some? && Parse(stored).value.value.keyID !in cfg.keys
    ensures stored == [] ==> Open(a, cfg, domain, stored, allowLegacy) == Ok(Opened([], None))
  {
    hide Split, DecodeRaw, OpenBytes;
  }

  // ----- Encryption disabled

  lemma {:induction false} DecodedIsNoLonger(al: Alphabet, s: Bytes)
    ensures DecodeGroups(al, s).Some? ==> |DecodeGroups(al, s).value| <= |s|
  {
    if |s| > 3 {
      DecodedIsNoLonger(al, s[4..]);
    }
  }

  lemma {:induction false} SkippedIsNoLonger(s: Bytes)
    ensures |SkipNewlines(s)| <= |s|
  {
    if s != [] {
      SkippedIsNoLonger(s[1..]);
    }
  }

  lemma {:induction false} PartIsNoLonger(s: Bytes, sep: byte, i: nat)
    requires i < |Split(s, sep)|
    ensures |Split(s, sep)[i]| <= |s|
  {
    if s != [] {
      PartIsNoLonger(s[1..], sep, if s[0] == sep && i > 0 then i - 1 else if s[0] == sep then 0 else i);
    }
  }

  /** What an envelope opens to is always shorter than the envelope. */
  lemma OpenedIsShorter(a: Aead, cfg: Config, domain: Bytes, stored: Bytes)
    requires Correct(a) && IsEnvelope(stored) && Open(a, cfg, domain, stored, true).Ok?
    ensures |Open(a, cfg, domain, stored, true).value.plaintext| < |stored|
  {
    var payload := Split(stored, COLON)[4];
    PartIsNoLonger(stored, COLON, 4);
    SkippedIsNoLonger(payload);
    DecodedIsNoLonger(Url, SkipNewlines(payload));
  }

  /**
   While encryption is disabled a value is stored as it is, so it reads back unchanged if and only if it does
   not look like an envelope itself.
   */
  lemma DisabledRoundTripIff(a: Aead, cfg: Config, domain: Bytes, plaintext: Bytes, rnd: Random)
    requires Correct(a) && !cfg.enabled
    ensures Seal(a, cfg, domain, plaintext, rnd) == Ok(plaintext)
    ensures (var r := Open(a, cfg, domain, plaintext, false); r.Ok? && r.value.plaintext == plaintext)
       <==> !IsEnvelope(plaintext)
  {
    if IsEnvelope(plaintext) && Open(a, cfg, domain, plaintext, false).Ok? {
      OpenedIsShorter(a, cfg, domain, plaintext);
    }
  }

  /** A concrete value the disabled mode does not read back. */
  lemma DisabledRoundTripFails(a: Aead, domain: Bytes, rnd: Random)
    requires Correct(a)
    ensures Open(a, Config(false, [], map[]), domain, Seal(a, Config(false, [], map[]), domain, PREFIX, rnd).value, false)
         == Err(MalformedHeader)
  {
    assert PREFIX == NAME + [COLON] + [];
    SplitAtSeparator(NAME, COLON, []);
    assert Split([], COLON) == [[]];
  }

  // ----- Associated data separates domains and purposes

  lemma WrapAadTellsKeyIDLengths(d: Bytes, k: Bytes, d': Bytes, k': Bytes)
    requires ValidKeyID(k) && ValidKeyID(k') && |k| < |k'|
    ensures WrapAad(d, k) != WrapAad(d', k')
  {
    var x, x' := WrapAad(d, k), WrapAad(d', k');
    assert x[|x| - |k| - 1] == COLON;
    assert x'[|x'| - |k| - 1] == k'[|k'| - |k| - 1];
  }

  /** Key identifiers hold no colon, so the last colon ends the domain, even when the domain holds colons. */
  lemma WrapAadInjective(d: Bytes, k: Bytes, d': Bytes, k': Bytes)
    requires ValidKeyID(k) && ValidKeyID(k')
    requires WrapAad(d, k) == WrapAad(d', k')
    ensures d == d' && k == k'
  {
    if |k| < |k'| {
      WrapAadTellsKeyIDLengths(d, k, d', k');
    } else if |k'| < |k| {
      WrapAadTellsKeyIDLengths(d', k', d, k);
    } else {
      var x, n := WrapAad(d, k), |WRAP_AAD|;
      assert k == x[|x| - |k|..] == k';
      assert d == x[n..|x| - |k| - 1] == d';
    }
  }

  lemma PayloadAadInjective(d: Bytes, d': Bytes)
    requires PayloadAad(d) == PayloadAad(d')
    ensures d == d'
  {
    assert d == PayloadAad(d)[|PAYLOAD_AAD|..];
    assert d' == PayloadAad(d')[|PAYLOAD_AAD|..];
  }

  /** No wrapped key can be presented as a payload, nor a payload as a wrapped key. */
  lemma AadPurposesDisjoint(d: Bytes, d': Bytes, k': Bytes)
    ensures PayloadAad(d) != WrapAad(d', k')
  {
    var i := |"new-api:data-encryption:v1:"|;
    assert PAYLOAD_AAD[i] == "new-api:data-encryption:v1:payload:"[i] as int;
    assert WRAP_AAD[i] == "new-api:data-encryption:v1:wrap:"[i] as int;
    assert PayloadAad(d)[i] == PAYLOAD_AAD[i];
    assert WrapAad(d', k')[i] == WRAP_AAD[i];
  }
}
