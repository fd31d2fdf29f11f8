/**
 Whole runs of the secret store: rows are written, rewrapped, deleted and the keyring is reconfigured, in any
 order.  The first half proves that no legal run ever loses a value; the second half that nothing opens which
 the run did not seal, short of a forged ciphertext.
 */
module Rotation {
  import opened Prelude
  import opened Envelope

  datatype Row = Row(domain: Bytes, stored: Bytes)

  /** One call of the cipher's seal operation. */
  datatype Call =
    | PayloadCall(key: Key, nonce: Nonce, domain: Bytes, plaintext: Bytes)
    | WrapCall(key: Key, nonce: Nonce, domain: Bytes, keyID: Bytes, dataKey: Key)

  /**
   The store, with a record of what happened to it: the plaintext last stored in each row, every seal call, and
   every value handed to the cipher for encryption.
   */
  datatype World = World(
    config: Config,
    rows: map<int, Row>,
    plain: map<int, Bytes>,
    calls: seq<Call>,
    sealed: set<(Bytes, Bytes)>)

  datatype Action =
    | Write(id: int, domain: Bytes, plaintext: Bytes, rnd: Random)
    | WriteRequired(id: int, domain: Bytes, plaintext: Bytes, rnd: Random)
    | Delete(id: int)
    | RewrapRow(id: int, rnd: Random)
    | Reconfigure(cfg: Config)

  function SealCalls(cfg: Config, domain: Bytes, plaintext: Bytes, rnd: Random): seq<Call> {
    [PayloadCall(rnd.dataKey, rnd.payloadNonce, domain, plaintext),
     WrapCall(ActiveKey(cfg), rnd.wrapNonce, domain, cfg.activeKeyID, rnd.dataKey)]
  }

  function Record(w: World, id: int, domain: Bytes, stored: Bytes, plaintext: Bytes): World {
    w.(rows := w.rows[id := Row(domain, stored)], plain := w.plain[id := plaintext])
  }

  function Log(w: World, domain: Bytes, plaintext: Bytes, rnd: Random): World {
    w.(calls := w.calls + SealCalls(w.config, domain, plaintext, rnd), sealed := w.sealed + {(domain, plaintext)})
  }

  /** A failing operation stores nothing. */
  function Apply(a: Aead, w: World, act: Action): World {
    match act
    case Write(id, domain, plaintext, rnd) =>
      (match Seal(a, w.config, domain, plaintext, rnd)
       case Err(_) => w
       case Ok(stored) =>
         var logged := if plaintext == [] || !w.config.enabled then w else Log(w, domain, plaintext, rnd);
         Record(logged, id, domain, stored, plaintext))
    case WriteRequired(id, domain, plaintext, rnd) =>
      (match SealRequired(a, w.config, domain, plaintext, rnd)
       case Err(_) => w
       case Ok(stored) =>
         var logged := if plaintext == [] then w else Log(w, domain, plaintext, rnd);
         Record(logged, id, domain, stored, plaintext))
    case Delete(id) => w.(rows := w.rows - {id}, plain := w.plain - {id})
    case RewrapRow(id, rnd) => if id in w.rows then ApplyRewrap(a, w, id, rnd) else w
    case Reconfigure(cfg) => w.(config := cfg)
  }

  function ApplyRewrap(a: Aead, w: World, id: int, rnd: Random): World
    requires id in w.rows
  {
    var Row(domain, stored) := w.rows[id];
    match Rewrap(a, w.config, domain, stored, rnd)
    case Err(_) => w
    case Ok((after, changed)) =>
      var logged :=
        if !changed then w
        else
          match Parse(stored)
          case Ok(Some(p)) =>
            var r := Unwrap(a, w.config, domain, p);
            if r.Err? then w
            else
              w.(calls := w.calls + [WrapCall(ActiveKey(w.config), rnd.wrapNonce, domain, w.config.activeKeyID, r.value)])
          case _ => Log(w, domain, stored, rnd);
      logged.(rows := logged.rows[id := Row(domain, after)])
  }

  function Run(a: Aead, w: World, acts: seq<Action>): World
    decreases |acts|
  {
    if acts == [] then w else Run(a, Apply(a, w, acts[0]), acts[1..])
  }

  /** The identifier of the root key a stored value needs, if it needs one. */
  function NamedKey(stored: Bytes): Option<Bytes> {
    match Parse(stored)
    case Ok(Some(p)) => Some(p.keyID)
    case _ => None
  }

  /** The rotation rule: a root key keeps its bytes and is dropped only once no row names it. */
  ghost predicate KeepsNamedKeys(w: World, cfg: Config) {
    forall id :: id in w.rows && NamedKey(w.rows[id].stored).Some? ==>
      var k := NamedKey(w.rows[id].stored).value;
      k in w.config.keys ==> k in cfg.keys && cfg.keys[k] == w.config.keys[k]
  }

  /**
   Reconfiguration obeys the rotation rule and installs a loadable configuration; while encryption is disabled
   no value that looks like an envelope is written (`DisabledRoundTripIff` shows why).
   */
  ghost predicate Legal(w: World, act: Action) {
    match act
    case Reconfigure(cfg) => ValidConfig(cfg) && KeepsNamedKeys(w, cfg)
    case Write(_, _, plaintext, _) => w.config.enabled || !IsEnvelope(plaintext)
    case _ => true
  }

  ghost predicate LegalRun(a: Aead, w: World, acts: seq<Action>)
    decreases |acts|
  {
    acts == [] || (Legal(w, acts[0]) && LegalRun(a, Apply(a, w, acts[0]), acts[1..]))
  }

  // ----- No run loses a value

  ghost predicate Readable(a: Aead, cfg: Config, row: Row, plaintext: Bytes, allowLegacy: bool) {
    var r := Open(a, cfg, row.domain, row.stored, allowLegacy);
    r.Ok? && r.value.plaintext == plaintext
  }

  /** Every row opens, with the migration reader, to the plaintext last stored in it. */
  ghost predicate Safe(a: Aead, w: World) {
    && ValidConfig(w.config)
    && w.rows.Keys == w.plain.Keys
    && forall id :: id in w.rows ==> Readable(a, w.config, w.rows[id], w.plain[id], true)
  }

  /** Before encryption is introduced the store holds plaintext only. */
  ghost predicate Initial(w: World) {
    && ValidConfig(w.config)
    && w.rows.Keys == w.plain.Keys
    && (forall id :: id in w.rows ==> w.rows[id].stored == w.plain[id] && !IsEnvelope(w.plain[id]))
    && w.calls == [] && w.sealed == {}
  }

  /** Opening consults no other root key than the one the value names. */
  lemma OpenNeedsNamedKeyOnly(a: Aead, cfg: Config, cfg': Config, domain: Bytes, stored: Bytes)
    requires var k := NamedKey(stored);
             k.Some? && k.value in cfg.keys ==> k.value in cfg'.keys && cfg'.keys[k.value] == cfg.keys[k.value]
    requires Open(a, cfg, domain, stored, true).Ok?
    ensures Open(a, cfg', domain, stored, true) == Open(a, cfg, domain, stored, true)
  {
  }

  lemma SealedRowIsReadable(a: Aead, cfg: Config, domain: Bytes, plaintext: Bytes, rnd: Random)
    requires Correct(a) && ValidConfig(cfg)
    ensures SealRequired(a, cfg, domain, plaintext, rnd).Ok? ==>
              Readable(a, cfg, Row(domain, SealRequired(a, cfg, domain, plaintext, rnd).value), plaintext, true)
  {
    if plaintext != [] && cfg.keys != map[] {
      OpenUndoesSeal(a, cfg, cfg, domain, plaintext, rnd, true);
    }
  }

  lemma RewrapKeepsRowReadable(a: Aead, w: World, id: int, rnd: Random)
    requires Correct(a) && Safe(a, w) && id in w.rows
    ensures Safe(a, ApplyRewrap(a, w, id, rnd))
  {
    hide Rewrap, Open, Parse, Unwrap;
    var Row(domain, stored) := w.rows[id];
    if Rewrap(a, w.config, domain, stored, rnd).Ok? {
      RewrapKeepsPlaintext(a, w.config, domain, stored, rnd);
    }
  }

  lemma StepKeepsValues(a: Aead, w: World, act: Action)
    requires Correct(a) && Safe(a, w) && Legal(w, act)
    ensures Safe(a, Apply(a, w, act))
  {
    match act
    case Write(id, domain, plaintext, rnd) =>
      SealedRowIsReadable(a, w.config, domain, plaintext, rnd);
    case WriteRequired(id, domain, plaintext, rnd) =>
      SealedRowIsReadable(a, w.config, domain, plaintext, rnd);
    case Delete(id) =>
    case RewrapRow(id, rnd) =>
      if id in w.rows {
        RewrapKeepsRowReadable(a, w, id, rnd);
      }
    case Reconfigure(cfg) =>
      forall id | id in w.rows ensures Readable(a, cfg, w.rows[id], w.plain[id], true) {
        OpenNeedsNamedKeyOnly(a, w.config, cfg, w.rows[id].domain, w.rows[id].stored);
      }
  }

  /** Rotation safety: after any legal run every row still opens to the plaintext last stored in it. */
  lemma {:induction false} RunKeepsValues(a: Aead, w: World, acts: seq<Action>)
    requires Correct(a) && Safe(a, w) && LegalRun(a, w, acts)
    ensures Safe(a, Run(a, w, acts))
    decreases |acts|
  {
    if acts != [] {
      StepKeepsValues(a, w, acts[0]);
      RunKeepsValues(a, Apply(a, w, acts[0]), acts[1..]);
    }
  }

  lemma InitialIsSafe(a: Aead, w: World)
    requires Initial(w)
    ensures Safe(a, w)
  {
  }

  /** The run-time reader agrees, except that enforcement refuses rows that are still plaintext. */
  lemma RuntimeReaderAgrees(a: Aead, w: World, id: int)
    requires Safe(a, w) && id in w.rows
    ensures Readable(a, w.config, w.rows[id], w.plain[id], false)
       <==> (w.config.enabled ==> w.rows[id].stored == [] || IsEnvelope(w.rows[id].stored))
  {
  }

  /** The rotation rule is also necessary: with unchanged bytes, a row survives exactly if the key it names does. */
  lemma RowSurvivesReconfigurationIff(a: Aead, w: World, id: int, cfg: Config)
    requires Safe(a, w) && id in w.rows
    requires forall k :: k in cfg.keys && k in w.config.keys ==> cfg.keys[k] == w.config.keys[k]
    ensures Readable(a, cfg, w.rows[id], w.plain[id], true)
       <==> (NamedKey(w.rows[id].stored).Some? ==> NamedKey(w.rows[id].stored).value in cfg.keys)
  {
    var k := NamedKey(w.rows[id].stored);
    if k.Some? ==> k.value in cfg.keys {
      OpenNeedsNamedKeyOnly(a, w.config, cfg, w.rows[id].domain, w.rows[id].stored);
    }
  }

  // ----- Rewrapping everything frees the old keys

  function RewrapAll(ids: seq<int>, rnd: int -> Random): seq<Action> {
    if ids == [] then [] else [RewrapRow(ids[0], rnd(ids[0]))] + RewrapAll(ids[1..], rnd)
  }

  /** The row is empty or wrapped by the active key. */
  ghost predicate Moved(w: World, id: int)
    requires id in w.rows
  {
    w.rows[id].stored == [] || NamedKey(w.rows[id].stored) == Some(w.config.activeKeyID)
  }

  lemma RewrapMovesRow(a: Aead, w: World, id: int, rnd: Random)
    requires Correct(a) && Safe(a, w) && w.config.enabled && w.config.keys != map[] && id in w.rows
    ensures var w' := ApplyRewrap(a, w, id, rnd);
            && Safe(a, w') && w'.config == w.config && w'.plain == w.plain
            && Moved(w', id) && forall k :: k in w.rows && k != id ==> w'.rows[k] == w.rows[k]
  {
    hide OpenBytes, SealBytes, SealWith, Unwrap;
    RewrapKeepsRowReadable(a, w, id, rnd);
    RewrapMovesToActiveKey(a, w.config, w.rows[id].domain, w.rows[id].stored, rnd, rnd);
  }

  lemma {:induction false} RewrapAllMoves(a: Aead, w: World, ids: seq<int>, rnd: int -> Random)
    requires Correct(a) && Safe(a, w) && w.config.enabled && w.config.keys != map[]
    ensures var w' := Run(a, w, RewrapAll(ids, rnd));
            && Safe(a, w') && w'.config == w.config && w'.plain == w.plain
            && forall k :: k in w'.rows && (k in ids || Moved(w, k)) ==> Moved(w', k)
    decreases |ids|
  {
    if ids != [] {
      var acts := RewrapAll(ids, rnd);
      assert acts[0] == RewrapRow(ids[0], rnd(ids[0])) && acts[1..] == RewrapAll(ids[1..], rnd);
      if ids[0] in w.rows {
        RewrapMovesRow(a, w, ids[0], rnd(ids[0]));
      }
      RewrapAllMoves(a, Apply(a, w, acts[0]), ids[1..], rnd);
    }
  }

  /**
   Once every row has been rewrapped the keyring may be cut to the active key alone: the rotation rule allows
   it, and every row is then readable at run time.
   */
  lemma OldKeysMayBeDropped(a: Aead, w: World, ids: seq<int>, rnd: int -> Random)
    requires Correct(a) && Safe(a, w) && w.config.enabled && w.config.keys != map[]
    requires forall id :: id in w.rows ==> id in ids || w.rows[id].stored == []
    ensures var w' := Run(a, w, RewrapAll(ids, rnd));
            var cut := Config(true, w.config.activeKeyID, map[w.config.activeKeyID := w.config.keys[w.config.activeKeyID]]);
            && w'.plain == w.plain && w'.rows.Keys == w.rows.Keys
            && Legal(w', Reconfigure(cut))
            && forall id :: id in w'.rows ==> Readable(a, cut, w'.rows[id], w.plain[id], false)
  {
    hide Run, RewrapAll, NamedKey, Open, Correct;
    RewrapAllMoves(a, w, ids, rnd);
    var w' := Run(a, w, RewrapAll(ids, rnd));
    var cut := Config(true, w.config.activeKeyID, map[w.config.activeKeyID := w.config.keys[w.config.activeKeyID]]);
    assert w.config.activeKeyID in cut.keys;
    forall id | id in w'.rows
      ensures NamedKey(w'.rows[id].stored).Some? ==> NamedKey(w'.rows[id].stored).value == w.config.activeKeyID
    {
      EmptyNamesNoKey();
      assert Moved(w', id);
    }
    StepKeepsValues(a, w', Reconfigure(cut));
    forall id | id in w'.rows ensures Readable(a, cut, w'.rows[id], w.plain[id], false) {
      assert Moved(w', id);
      EncryptedReadsAlike(a, cut, w'.rows[id].domain, w'.rows[id].stored);
    }
  }

  lemma EmptyNamesNoKey()
    ensures NamedKey([]) == None
  {
  }

  /** Whether legacy plaintext is allowed matters only to plaintext. */
  lemma EncryptedReadsAlike(a: Aead, cfg: Config, domain: Bytes, stored: Bytes)
    requires stored == [] || NamedKey(stored).Some?
    ensures Open(a, cfg, domain, stored, false) == Open(a, cfg, domain, stored, true)
  {
  }

  // ----- Nothing opens that was not sealed

  function Aad(c: Call): Bytes {
    match c
    case PayloadCall(_, _, domain, _) => PayloadAad(domain)
    case WrapCall(_, _, domain, keyID, _) => WrapAad(domain, keyID)
  }

  function Ciphertext(a: Aead, c: Call): Bytes {
    SealBytes(a, c.key, c.nonce, if c.PayloadCall? then c.plaintext else c.dataKey, Aad(c))
  }

  /** The cipher accepts a ciphertext under a key and associated data that no seal call produced. */
  ghost predicate Forged(a: Aead, calls: seq<Call>, key: Key, payload: Bytes, aad: Bytes) {
    && OpenBytes(a, key, payload, aad).Some?
    && forall c :: c in calls ==> !(c.key == key && Aad(c) == aad && Ciphertext(a, c) == payload)
  }

  /** The log is honest: payload calls are exactly for values handed to seal, wrap calls name valid identifiers. */
  ghost predicate Honest(w: World) {
    && ValidConfig(w.config)
    && forall c :: c in w.calls ==>
         if c.PayloadCall? then (c.domain, c.plaintext) in w.sealed else ValidKeyID(c.keyID)
  }

  /** Nothing is sealed without a valid active identifier. */
  lemma SealingNeedsActiveKey(a: Aead, cfg: Config, domain: Bytes, value: Bytes, rnd: Random)
    requires ValidConfig(cfg)
    ensures value != [] && SealRequired(a, cfg, domain, value, rnd).Ok? ==> ValidKeyID(cfg.activeKeyID)
    ensures Rewrap(a, cfg, domain, value, rnd).Ok? && Rewrap(a, cfg, domain, value, rnd).value.1 ==> ValidKeyID(cfg.activeKeyID)
  {
    hide Parse, Unwrap, OpenBytes, SealBytes;
  }

  lemma StepIsHonest(a: Aead, w: World, act: Action)
    requires Honest(w) && (act.Reconfigure? ==> ValidConfig(act.cfg))
    ensures Honest(Apply(a, w, act))
  {
    match act
    case Write(_, domain, plaintext, rnd) =>
      SealingNeedsActiveKey(a, w.config, domain, plaintext, rnd);
    case WriteRequired(_, domain, plaintext, rnd) =>
      SealingNeedsActiveKey(a, w.config, domain, plaintext, rnd);
    case RewrapRow(id, rnd) =>
      if id in w.rows {
        hide Rewrap, Parse, Unwrap;
        SealingNeedsActiveKey(a, w.config, w.rows[id].domain, w.rows[id].stored, rnd);
      }
    case _ =>
  }

  lemma {:induction false} RunIsHonest(a: Aead, w: World, acts: seq<Action>)
    requires Honest(w) && LegalRun(a, w, acts)
    ensures Honest(Run(a, w, acts))
    decreases |acts|
  {
    if acts != [] {
      StepIsHonest(a, w, acts[0]);
      RunIsHonest(a, Apply(a, w, acts[0]), acts[1..]);
    }
  }

  /**
   Authenticity: whatever text is presented, if it opens as an envelope for a domain then that very plaintext was
   sealed for that very domain, unless the cipher was beaten under a configured root key, or under a data key
   this store generated for the domain.
   */
  lemma OpenedValueWasSealed(a: Aead, w: World, domain: Bytes, stored: Bytes, p: Parsed, dataKey: Key, plaintext: Bytes)
    requires Correct(a) && Honest(w)
    requires stored != [] && Parse(stored) == Ok(Some(p)) && Unwrap(a, w.config, domain, p) == Ok(dataKey)
    requires Open(a, w.config, domain, stored, false) == Ok(Opened(plaintext, Some(p.keyID)))
    ensures || (domain, plaintext) in w.sealed
            || Forged(a, w.calls, w.config.keys[p.keyID], p.wrappedKey, WrapAad(domain, p.keyID))
            || (&& (exists c :: c in w.calls && c.WrapCall? && c.domain == domain && c.keyID == p.keyID && c.dataKey == dataKey)
                && Forged(a, w.calls, dataKey, p.dataPayload, PayloadAad(domain)))
  {
    var rootKey := w.config.keys[p.keyID];
    if !Forged(a, w.calls, rootKey, p.wrappedKey, WrapAad(domain, p.keyID)) {
      var c :| c in w.calls && c.key == rootKey && Aad(c) == WrapAad(domain, p.keyID) && Ciphertext(a, c) == p.wrappedKey;
      WrapCallOpens(a, c, domain, p.keyID);
      if !Forged(a, w.calls, dataKey, p.dataPayload, PayloadAad(domain)) {
        var e :| e in w.calls && e.key == dataKey && Aad(e) == PayloadAad(domain) && Ciphertext(a, e) == p.dataPayload;
        PayloadCallOpens(a, e, domain);
      }
    }
  }

  lemma WrapCallOpens(a: Aead, c: Call, domain: Bytes, keyID: Bytes)
    requires Correct(a) && ValidKeyID(keyID) && (c.WrapCall? ==> ValidKeyID(c.keyID))
    requires Aad(c) == WrapAad(domain, keyID)
    ensures c.WrapCall? && c.domain == domain && c.keyID == keyID
    ensures OpenBytes(a, c.key, Ciphertext(a, c), Aad(c)) == Some(c.dataKey)
  {
    if c.PayloadCall? {
      AadPurposesDisjoint(c.domain, domain, keyID);
    } else {
      WrapAadInjective(c.domain, c.keyID, domain, keyID);
      OpenBytesUndoesSealBytes(a, c.key, c.nonce, c.dataKey, Aad(c));
    }
  }

  lemma PayloadCallOpens(a: Aead, c: Call, domain: Bytes)
    requires Correct(a) && Aad(c) == PayloadAad(domain)
    ensures c.PayloadCall? && c.domain == domain
    ensures OpenBytes(a, c.key, Ciphertext(a, c), Aad(c)) == Some(c.plaintext)
  {
    if c.WrapCall? {
      AadPurposesDisjoint(domain, c.domain, c.keyID);
    } else {
      PayloadAadInjective(c.domain, domain);
      OpenBytesUndoesSealBytes(a, c.key, c.nonce, c.plaintext, Aad(c));
    }
  }

  ghost predicate FreshNonces(calls: seq<Call>) {
    forall i, j :: 0 <= i < j < |calls| ==> calls[i].nonce != calls[j].nonce
  }

  lemma CiphertextStartsWithNonce(a: Aead, c: Call)
    ensures |Ciphertext(a, c)| >= NONCE_SIZE && Ciphertext(a, c)[..NONCE_SIZE] == c.nonce
  {
  }

  /** Domain binding: with fresh nonces, an envelope whose data key was wrapped for one domain opens under no other. */
  lemma EnvelopeIsBoundToItsDomain(a: Aead, w: World, i: nat, domain: Bytes, stored: Bytes, p: Parsed)
    requires Correct(a) && Honest(w) && FreshNonces(w.calls)
    requires i < |w.calls| && w.calls[i].WrapCall?
    requires stored != [] && Parse(stored) == Ok(Some(p)) && p.wrappedKey == Ciphertext(a, w.calls[i])
    requires Open(a, w.config, domain, stored, false).Ok?
    ensures || domain == w.calls[i].domain
            || Forged(a, w.calls, w.config.keys[p.keyID], p.wrappedKey, WrapAad(domain, p.keyID))
  {
    var rootKey := w.config.keys[p.keyID];
    if !Forged(a, w.calls, rootKey, p.wrappedKey, WrapAad(domain, p.keyID)) {
      var c :| c in w.calls && c.key == rootKey && Aad(c) == WrapAad(domain, p.keyID) && Ciphertext(a, c) == p.wrappedKey;
      WrapCallOpens(a, c, domain, p.keyID);
      CiphertextStartsWithNonce(a, c);
      CiphertextStartsWithNonce(a, w.calls[i]);
      var j :| 0 <= j < |w.calls| && w.calls[j] == c;
      assert i == j;
    }
  }

  /** If the stored value is an envelope, its wrapped key came out of a logged call for the domain. */
  ghost predicate WrappedFor(a: Aead, calls: seq<Call>, domain: Bytes, stored: Bytes) {
    match Parse(stored)
    case Ok(Some(p)) => exists c :: c in calls && c.WrapCall? && c.domain == domain && Ciphertext(a, c) == p.wrappedKey
    case _ => true
  }

  ghost predicate RowsAreLogged(a: Aead, w: World) {
    forall id :: id in w.rows ==> WrappedFor(a, w.calls, w.rows[id].domain, w.rows[id].stored)
  }

  lemma MoreCallsKeepLogged(a: Aead, calls: seq<Call>, more: seq<Call>, domain: Bytes, stored: Bytes)
    requires WrappedFor(a, calls, domain, stored)
    ensures WrappedFor(a, calls + more, domain, stored)
  {
    hide Parse, Ciphertext;
  }

  lemma PlainIsLogged(a: Aead, calls: seq<Call>, domain: Bytes, stored: Bytes)
    requires !IsEnvelope(stored)
    ensures WrappedFor(a, calls, domain, stored)
  {
  }

  /** A printed envelope counts as logged with the call that wrapped its key. */
  lemma PrintedIsLogged(a: Aead, calls: seq<Call>, c: Call, p: Parsed)
    requires Correct(a) && c.WrapCall? && c in calls && p.wrappedKey == Ciphertext(a, c)
    requires ValidKeyID(p.keyID) && |p.dataPayload| >= NONCE_SIZE + TAG_SIZE
    ensures WrappedFor(a, calls, c.domain, Print(p))
  {
    OpenBytesUndoesSealBytes(a, c.key, c.nonce, c.dataKey, Aad(c));
    ParseUndoesPrint(p);
  }

  lemma SealedIsLogged(a: Aead, cfg: Config, calls: seq<Call>, domain: Bytes, plaintext: Bytes, rnd: Random)
    requires Correct(a) && ValidConfig(cfg) && SealWith(a, cfg, domain, plaintext, rnd).Ok?
    ensures WrappedFor(a, calls + SealCalls(cfg, domain, plaintext, rnd), domain, SealWith(a, cfg, domain, plaintext, rnd).value)
  {
    hide WrappedFor, SealBytes, Print, Correct;
    var all := calls + SealCalls(cfg, domain, plaintext, rnd);
    var c := WrapCall(ActiveKey(cfg), rnd.wrapNonce, domain, cfg.activeKeyID, rnd.dataKey);
    assert all[|calls| + 1] == c;
    OpenBytesUndoesSealBytes(a, rnd.dataKey, rnd.payloadNonce, plaintext, PayloadAad(domain));
    PrintedIsLogged(a, all, c,
                    Parsed(cfg.activeKeyID, Ciphertext(a, c), SealBytes(a, rnd.dataKey, rnd.payloadNonce, plaintext, PayloadAad(domain))));
  }

  lemma WriteKeepsLogged(a: Aead, w: World, act: Action)
    requires Correct(a) && Honest(w) && RowsAreLogged(a, w) && Legal(w, act) && (act.Write? || act.WriteRequired?)
    ensures RowsAreLogged(a, Apply(a, w, act))
  {
    hide WrappedFor, SealWith, Correct, Honest;
    var w' := Apply(a, w, act);
    if w' != w {
      if act.plaintext == [] || (act.Write? && !w.config.enabled) {
        PlainIsLogged(a, w.calls, act.domain, act.plaintext);
      } else {
        HonestIsValid(w);
        SealedIsLogged(a, w.config, w.calls, act.domain, act.plaintext, act.rnd);
      }
      forall id | id in w.rows ensures WrappedFor(a, w'.calls, w.rows[id].domain, w.rows[id].stored) {
        MoreCallsKeepLogged(a, w.calls, SealCalls(w.config, act.domain, act.plaintext, act.rnd), w.rows[id].domain, w.rows[id].stored);
      }
    }
  }

  lemma HonestIsValid(w: World)
    requires Honest(w)
    ensures ValidConfig(w.config)
  {
  }

  /** What a successful rewrap stores is logged, and the log only grows. */
  lemma RewrappedIsLogged(a: Aead, w: World, id: int, rnd: Random)
    requires Correct(a) && ValidConfig(w.config) && id in w.rows
    requires WrappedFor(a, w.calls, w.rows[id].domain, w.rows[id].stored)
    ensures var w' := ApplyRewrap(a, w, id, rnd);
            && w.calls <= w'.calls && w'.rows == w.rows[id := w'.rows[id]] && w'.rows[id].domain == w.rows[id].domain
            && WrappedFor(a, w'.calls, w.rows[id].domain, w'.rows[id].stored)
  {
    var Row(domain, stored) := w.rows[id];
    hide SealBytes, Print, Correct, OpenBytes;
    if Rewrap(a, w.config, domain, stored, rnd).Ok? && Rewrap(a, w.config, domain, stored, rnd).value.1 {
      if Parse(stored).value.None? {
        SealedIsLogged(a, w.config, w.calls, domain, stored, rnd);
      } else {
        var p := Parse(stored).value.value;
        var c := WrapCall(ActiveKey(w.config), rnd.wrapNonce, domain, w.config.activeKeyID, Unwrap(a, w.config, domain, p).value);
        assert (w.calls + [c])[|w.calls|] == c;
        ParsedIsWellFormed(stored);
        PrintedIsLogged(a, w.calls + [c], c, Parsed(w.config.activeKeyID, Ciphertext(a, c), p.dataPayload));
      }
    }
  }

  lemma StepKeepsLogged(a: Aead, w: World, act: Action)
    requires Correct(a) && Honest(w) && RowsAreLogged(a, w) && Legal(w, act)
    ensures RowsAreLogged(a, Apply(a, w, act))
  {
    hide WrappedFor, ApplyRewrap, Correct;
    match act
    case Write(_, _, _, _) => WriteKeepsLogged(a, w, act);
    case WriteRequired(_, _, _, _) => WriteKeepsLogged(a, w, act);
    case RewrapRow(id, rnd) =>
      if id in w.rows {
        var w' := ApplyRewrap(a, w, id, rnd);
        RewrappedIsLogged(a, w, id, rnd);
        forall k | k in w.rows ensures WrappedFor(a, w'.calls, w.rows[k].domain, w.rows[k].stored) {
          MoreCallsKeepLogged(a, w.calls, w'.calls[|w.calls|..], w.rows[k].domain, w.rows[k].stored);
          assert w.calls + w'.calls[|w.calls|..] == w'.calls;
        }
      }
    case _ =>
  }

  lemma {:induction false} RunKeepsLogged(a: Aead, w: World, acts: seq<Action>)
    requires Correct(a) && Honest(w) && RowsAreLogged(a, w) && LegalRun(a, w, acts)
    ensures RowsAreLogged(a, Run(a, w, acts)) && Honest(Run(a, w, acts))
    decreases |acts|
  {
    hide RowsAreLogged, Honest, Correct, Apply, Legal;
    if acts != [] {
      StepKeepsLogged(a, w, acts[0]);
      LegalKeepsConfigValid(w, acts[0]);
      StepIsHonest(a, w, acts[0]);
      RunKeepsLogged(a, Apply(a, w, acts[0]), acts[1..]);
    }
  }

  lemma LegalKeepsConfigValid(w: World, act: Action)
    requires Legal(w, act)
    ensures act.Reconfigure? ==> ValidConfig(act.cfg)
  {
  }

  lemma InitialIsLogged(a: Aead, w: World)
    requires Initial(w)
    ensures RowsAreLogged(a, w) && Honest(w)
  {
  }

  /**
   Domain binding over whole runs: from a store of plaintext, after any legal run with fresh nonces, a stored envelope
   opens only under the domain of its own row, unless a wrapped key was forged.
   */
  lemma RowOpensOnlyUnderItsDomain(a: Aead, start: World, acts: seq<Action>, id: int, domain: Bytes, p: Parsed)
    requires Correct(a) && Initial(start) && LegalRun(a, start, acts)
    requires var w := Run(a, start, acts);
             && FreshNonces(w.calls) && id in w.rows && Parse(w.rows[id].stored) == Ok(Some(p))
             && Open(a, w.config, domain, w.rows[id].stored, false).Ok?
    ensures var w := Run(a, start, acts);
            || domain == w.rows[id].domain
            || Forged(a, w.calls, w.config.keys[p.keyID], p.wrappedKey, WrapAad(domain, p.keyID))
  {
    hide Run, LegalRun, Initial, Correct, Honest, FreshNonces, Ciphertext, OpenBytes;
    var w := Run(a, start, acts);
    InitialIsLogged(a, start);
    RunKeepsLogged(a, start, acts);
    var c :| c in w.calls && c.WrapCall? && c.domain == w.rows[id].domain && Ciphertext(a, c) == p.wrappedKey;
    var i :| 0 <= i < |w.calls| && w.calls[i] == c;
    EnvelopeIsBoundToItsDomain(a, w, i, domain, w.rows[id].stored, p);
  }
}
