/**
 Loading the root keys from the environment: `InitDataEncryption` fills a key map entry by entry and swaps the
 process-wide configuration only when the whole environment is acceptable.
 `strings.TrimSpace` is a parameter, so nothing here depends on Unicode's whitespace table.
 */
module Keyring {
  import opened Prelude
  import opened Text
  import opened Base64
  import opened Envelope

  const COMMA: byte := 44
  const EQUALS: byte := 61

  /** The three environment variables; an unset one is empty. */
  datatype Environment = Environment(enable: Bytes, keys: Bytes, activeKeyID: Bytes)

  datatype InitError =
    | EnableNotBoolean
    | ActiveKeyWithoutKeys
    | InvalidActiveKeyID
    | EntryWithoutEquals
    | InvalidKeyID
    | DuplicateKeyID
    | KeyNotBase64
    | KeyWrongSize
    | ActiveKeyMissing

  type Trim = Bytes -> Bytes

  /** `strconv.ParseBool`. */
  function ParseBool(s: Bytes): Option<bool> {
    if s in [Ascii("1"), Ascii("t"), Ascii("T"), Ascii("TRUE"), Ascii("true"), Ascii("True")] then Some(true)
    else if s in [Ascii("0"), Ascii("f"), Ascii("F"), Ascii("FALSE"), Ascii("false"), Ascii("False")] then Some(false)
    else None
  }

  function Enabled(trim: Trim, env: Environment): Option<bool> {
    if trim(env.enable) == [] then Some(true) else ParseBool(trim(env.enable))
  }

  /** Encryption is on unless one of six texts turns it off, and six more texts are accepted beside the empty one. */
  lemma EnabledMeans(trim: Trim, env: Environment)
    ensures var t := trim(env.enable);
            && (Enabled(trim, env).None?
                <==> t != [] && t !in [Ascii("1"), Ascii("t"), Ascii("T"), Ascii("TRUE"), Ascii("true"), Ascii("True"),
                                       Ascii("0"), Ascii("f"), Ascii("F"), Ascii("FALSE"), Ascii("false"), Ascii("False")])
            && (Enabled(trim, env) == Some(false)
                <==> t in [Ascii("0"), Ascii("f"), Ascii("F"), Ascii("FALSE"), Ascii("false"), Ascii("False")])
  {
    var t := trim(env.enable);
    if t in [Ascii("0"), Ascii("f"), Ascii("F"), Ascii("FALSE"), Ascii("false"), Ascii("False")] {
      assert t[0] in [48, 102, 70];
    }
    if t in [Ascii("1"), Ascii("t"), Ascii("T"), Ascii("TRUE"), Ascii("true"), Ascii("True")] {
      assert t[0] in [49, 116, 84];
    }
  }

  /** `strings.SplitN(s, sep, 2)`: the text around the first separator, if there is one. */
  function Cut(s: Bytes, sep: byte): (r: Option<(Bytes, Bytes)>)
    ensures r.Some? ==> r.value.0 + [sep] + r.value.1 == s && sep !in r.value.0
    ensures r.None? ==> sep !in s
  {
    if s == [] then None
    else if s[0] == sep then Some(([], s[1..]))
    else
      match Cut(s[1..], sep)
      case None => None
      case Some((x, y)) => Some(([s[0]] + x, y))
  }

  /** The identifier part of a `key-id=base64-key` entry. */
  function EntryID(trim: Trim, entry: Bytes): Option<Bytes> {
    match Cut(trim(entry), EQUALS)
    case None => None
    case Some((id, _)) => Some(trim(id))
  }

  /** The bytes of the key part, if it is base64. */
  function EntryKey(trim: Trim, entry: Bytes): Option<Bytes> {
    match Cut(trim(entry), EQUALS)
    case None => None
    case Some((_, text)) => DecodePadded(Std, trim(text))
  }

  function Entries(trim: Trim, env: Environment): seq<Bytes> {
    Split(trim(env.keys), COMMA)
  }

  /** Entries stand between commas; identifier and key stand around the first equals sign, and both are trimmed. */
  lemma EntriesMean(trim: Trim, env: Environment, entry: Bytes, x: Bytes, y: Bytes)
    ensures var comma: byte := ',' as int; Entries(trim, env) == Split(trim(env.keys), comma)
    ensures trim(entry) == x + ['=' as int] + y && '=' as int !in x ==>
              EntryID(trim, entry) == Some(trim(x)) && EntryKey(trim, entry) == DecodePadded(Std, trim(y))
  {
    if trim(entry) == x + ['=' as int] + y && '=' as int !in x {
      CutAtFirst(x, EQUALS, y);
    }
  }

  ghost predicate RepeatsID(trim: Trim, entries: seq<Bytes>, i: nat)
    requires i < |entries|
  {
    exists j :: 0 <= j < i && EntryID(trim, entries[j]) == EntryID(trim, entries[i])
  }

  /** What is wrong with one entry, in the order of the checks. */
  ghost function Fault(trim: Trim, entries: seq<Bytes>, i: nat): Option<InitError>
    requires i < |entries|
  {
    match EntryID(trim, entries[i])
    case None => Some(EntryWithoutEquals)
    case Some(id) =>
      if !ValidKeyID(id) then Some(InvalidKeyID)
      else if RepeatsID(trim, entries, i) then Some(DuplicateKeyID)
      else
        match EntryKey(trim, entries[i])
        case None => Some(KeyNotBase64)
        case Some(key) => if |key| != KEY_SIZE then Some(KeyWrongSize) else None
  }

  /** The ring holds the key of every entry under the entry's identifier, and nothing else. */
  ghost predicate Ring(trim: Trim, entries: seq<Bytes>, n: nat, keys: map<Bytes, Key>)
    requires n <= |entries|
  {
    && (forall i :: 0 <= i < n ==>
          var id := EntryID(trim, entries[i]);
          id.Some? && id.value in keys && EntryKey(trim, entries[i]) == Some(keys[id.value]))
    && (forall id :: id in keys ==> ValidKeyID(id) && exists i :: 0 <= i < n && EntryID(trim, entries[i]) == Some(id))
  }

  /** The loop over the entries: it stops at the first faulty one, or builds the ring they describe. */
  method LoadKeys(trim: Trim, entries: seq<Bytes>) returns (r: Result<map<Bytes, Key>, InitError>)
    ensures r.Ok? ==>
              && (forall i :: 0 <= i < |entries| ==> Fault(trim, entries, i) == None)
              && Ring(trim, entries, |entries|, r.value)
    ensures r.Err? ==>
              exists i :: && 0 <= i < |entries| && Fault(trim, entries, i) == Some(r.error)
                          && forall j :: 0 <= j < i ==> Fault(trim, entries, j) == None
  {
    hide EntryID, EntryKey, ValidKeyID, Ring;
    var keys: map<Bytes, Key> := map[];
    RingStartsEmpty(trim, entries);
    for i := 0 to |entries|
      invariant forall j :: 0 <= j < i ==> Fault(trim, entries, j) == None
      invariant Ring(trim, entries, i, keys)
    {
      var id := EntryID(trim, entries[i]);
      if id.None? {
        assert Fault(trim, entries, i) == Some(EntryWithoutEquals);
        return Err(EntryWithoutEquals);
      }
      if !ValidKeyID(id.value) {
        assert Fault(trim, entries, i) == Some(InvalidKeyID);
        return Err(InvalidKeyID);
      }
      RingKnowsIDs(trim, entries, i, keys);
      if id.value in keys {
        assert Fault(trim, entries, i) == Some(DuplicateKeyID);
        return Err(DuplicateKeyID);
      }
      var key := EntryKey(trim, entries[i]);
      if key.None? {
        assert Fault(trim, entries, i) == Some(KeyNotBase64);
        return Err(KeyNotBase64);
      }
      if |key.value| != KEY_SIZE {
        assert Fault(trim, entries, i) == Some(KeyWrongSize);
        return Err(KeyWrongSize);
      }
      RingGrows(trim, entries, i, keys, id.value, key.value);
      keys := keys[id.value := key.value];
    }
    return Ok(keys);
  }

  lemma RingStartsEmpty(trim: Trim, entries: seq<Bytes>)
    ensures Ring(trim, entries, 0, map[])
  {
  }

  /** The ring holds an identifier exactly if an earlier entry has it. */
  lemma RingKnowsIDs(trim: Trim, entries: seq<Bytes>, i: nat, keys: map<Bytes, Key>)
    requires i < |entries| && Ring(trim, entries, i, keys) && EntryID(trim, entries[i]).Some?
    ensures EntryID(trim, entries[i]).value in keys <==> RepeatsID(trim, entries, i)
  {
    hide EntryID, EntryKey, ValidKeyID;
  }

  /** One sound entry extends the ring. */
  lemma RingGrows(trim: Trim, entries: seq<Bytes>, i: nat, keys: map<Bytes, Key>, id: Bytes, key: Key)
    requires i < |entries| && Ring(trim, entries, i, keys)
    requires EntryID(trim, entries[i]) == Some(id) && ValidKeyID(id) && id !in keys && EntryKey(trim, entries[i]) == Some(key)
    ensures Ring(trim, entries, i + 1, keys[id := key])
  {
    hide EntryID, EntryKey, ValidKeyID;
  }

  /**
   Entries without a fault are exactly those that all have an equals sign, a valid identifier that no other entry has,
   and 32 bytes in base64.
   */
  lemma EntriesAreSoundIff(trim: Trim, entries: seq<Bytes>)
    ensures (forall i :: 0 <= i < |entries| ==> Fault(trim, entries, i) == None)
       <==> && (forall i :: 0 <= i < |entries| ==> SoundEntry(trim, entries[i]))
            && forall i, j :: 0 <= j < i < |entries| ==> EntryID(trim, entries[i]) != EntryID(trim, entries[j])
  {
    hide Fault, EntryID, EntryKey, ValidKeyID;
    forall i | 0 <= i < |entries|
      ensures Fault(trim, entries, i) == None <==> SoundEntry(trim, entries[i]) && !RepeatsID(trim, entries, i)
    {
      FaultNoneIff(trim, entries, i);
    }
    if forall i :: 0 <= i < |entries| ==> !RepeatsID(trim, entries, i) {
      forall i, j | 0 <= j < i < |entries| ensures EntryID(trim, entries[i]) != EntryID(trim, entries[j]) {
        assert !RepeatsID(trim, entries, i);
      }
    }
  }

  ghost predicate SoundEntry(trim: Trim, entry: Bytes) {
    && EQUALS in trim(entry)
    && EntryID(trim, entry).Some? && ValidKeyID(EntryID(trim, entry).value)
    && EntryKey(trim, entry).Some? && |EntryKey(trim, entry).value| == 32
  }

  lemma FaultNoneIff(trim: Trim, entries: seq<Bytes>, i: nat)
    requires i < |entries|
    ensures Fault(trim, entries, i) == None <==> SoundEntry(trim, entries[i]) && !RepeatsID(trim, entries, i)
  {
    EntryHasIDIff(trim, entries[i]);
    hide EntryID, EntryKey, ValidKeyID, RepeatsID;
  }

  lemma EntryHasIDIff(trim: Trim, entry: Bytes)
    ensures EntryID(trim, entry).Some? <==> EQUALS in trim(entry)
  {
    var r := Cut(trim(entry), EQUALS);
    if r.Some? {
      assert (r.value.0 + [EQUALS] + r.value.1)[|r.value.0|] == EQUALS;
    }
  }

  /** The environments `InitDataEncryption` accepts. */
  ghost predicate Acceptable(trim: Trim, env: Environment) {
    && Enabled(trim, env).Some?
    && if trim(env.keys) == [] then trim(env.activeKeyID) == []
       else
         var entries := Entries(trim, env);
         && ValidKeyID(trim(env.activeKeyID))
         && (forall i :: 0 <= i < |entries| ==> Fault(trim, entries, i) == None)
         && exists i :: 0 <= i < |entries| && EntryID(trim, entries[i]) == Some(trim(env.activeKeyID))
  }

  class Service {
    /** The stored pointer; absent until the first successful load. */
    var config: Option<Config>

    /** Before the first load encryption is enforced and no key is known. */
    constructor ()
      ensures config == None && Current() == Config(true, [], map[])
    {
      config := None;
    }

    /** `currentDataEncryptionConfig`. */
    function Current(): Config
      reads this
    {
      if config.Some? then config.value else Config(true, [], map[])
    }

    /**
     Succeeds exactly on the acceptable environments; then the ring is the one the entries describe and holds
     the active key.  On failure the previous configuration stays in force.
     */
    method InitDataEncryption(trim: Trim, env: Environment) returns (err: Option<InitError>)
      modifies this
      ensures err.None? <==> Acceptable(trim, env)
      ensures err.None? ==>
                && config.Some? && ValidConfig(Current())
                && (Current().enabled <==> trim(env.enable) !in [Ascii("0"), Ascii("f"), Ascii("F"), Ascii("FALSE"), Ascii("false"), Ascii("False")])
                && Current().activeKeyID == trim(env.activeKeyID)
                && (if trim(env.keys) == [] then Current().keys == map[] else Ring(trim, Entries(trim, env), |Entries(trim, env)|, Current().keys))
      ensures err.Some? ==> config == old(config)
      ensures err == Some(EnableNotBoolean)
         <==> trim(env.enable) !in [[], Ascii("1"), Ascii("t"), Ascii("T"), Ascii("TRUE"), Ascii("true"), Ascii("True"),
                                    Ascii("0"), Ascii("f"), Ascii("F"), Ascii("FALSE"), Ascii("false"), Ascii("False")]
      ensures err == Some(ActiveKeyWithoutKeys)
         <==> Enabled(trim, env).Some? && trim(env.keys) == [] && trim(env.activeKeyID) != []
      ensures err == Some(InvalidActiveKeyID)
         <==> Enabled(trim, env).Some? && trim(env.keys) != [] && !ValidKeyID(trim(env.activeKeyID))
      ensures err == Some(ActiveKeyMissing)
         <==> && Enabled(trim, env).Some? && trim(env.keys) != [] && ValidKeyID(trim(env.activeKeyID))
              && (forall i :: 0 <= i < |Entries(trim, env)| ==> Fault(trim, Entries(trim, env), i) == None)
              && (forall i :: 0 <= i < |Entries(trim, env)| ==> EntryID(trim, Entries(trim, env)[i]) != Some(trim(env.activeKeyID)))
      ensures err.Some? && err.value !in {EnableNotBoolean, ActiveKeyWithoutKeys, InvalidActiveKeyID, ActiveKeyMissing} ==>
                exists i :: && 0 <= i < |Entries(trim, env)| && Fault(trim, Entries(trim, env), i) == err
                            && forall j :: 0 <= j < i ==> Fault(trim, Entries(trim, env), j) == None
    {
      hide Enabled, ValidKeyID, EntryID, EntryKey;
      EnabledMeans(trim, env);
      var enabled := Enabled(trim, env);
      if enabled.None? {
        return Some(EnableNotBoolean);
      }
      var activeKeyID := trim(env.activeKeyID);
      if trim(env.keys) == [] {
        if activeKeyID != [] {
          return Some(ActiveKeyWithoutKeys);
        }
        config := Some(Config(enabled.value, [], map[]));
        return None;
      }
      if !ValidKeyID(activeKeyID) {
        return Some(InvalidActiveKeyID);
      }

      var loaded := LoadKeys(trim, Entries(trim, env));
      if loaded.Err? {
        return Some(loaded.error);
      }
      if activeKeyID !in loaded.value {
        return Some(ActiveKeyMissing);
      }
      config := Some(Config(enabled.value, activeKeyID, loaded.value));
      return None;
    }
  }

  // ----- A printed ring loads as it was printed

  function PrintEntry(id: Bytes, key: Key): Bytes {
    id + [EQUALS] + EncodePadded(Std, key)
  }

  function PrintEntries(ids: seq<Bytes>, keys: map<Bytes, Key>): (entries: seq<Bytes>)
    requires forall i :: 0 <= i < |ids| ==> ids[i] in keys
    ensures |entries| == |ids| && forall i :: 0 <= i < |ids| ==> entries[i] == PrintEntry(ids[i], keys[ids[i]])
  {
    seq(|ids|, i requires 0 <= i < |ids| => PrintEntry(ids[i], keys[ids[i]]))
  }

  predicate Graphic(c: byte) {
    33 <= c <= 126
  }

  /** All that is asked of `strings.TrimSpace`: text that starts and ends with a visible character stays as it is. */
  ghost predicate KeepsVisible(trim: Trim) {
    forall s: Bytes :: s != [] && Graphic(s[0]) && Graphic(s[|s| - 1]) ==> trim(s) == s
  }

  lemma {:induction false} CutAtFirst(x: Bytes, sep: byte, y: Bytes)
    requires sep !in x
    ensures Cut(x + [sep] + y, sep) == Some((x, y))
  {
    var s := x + [sep] + y;
    if x == [] {
      assert s[1..] == y;
    } else {
      assert s[1..] == x[1..] + [sep] + y;
      CutAtFirst(x[1..], sep, y);
      assert [x[0]] + x[1..] == x;
    }
  }

  lemma KeyTextFacts(key: Key)
    ensures var text := EncodePadded(Std, key);
            && text != [] && Graphic(text[0]) && Graphic(text[|text| - 1]) && COMMA !in text
            && DecodePadded(Std, text) == Some(key)
  {
    PaddedRoundTrip(Std, key);
    EncodedTextIsDigits(Std, key);
    EncodedLength(Std, key);
    hide EncodeRaw, DecodePadded;
    var raw, text := EncodeRaw(Std, key), EncodePadded(Std, key);
    assert IsDigit(Std, raw[0]) && text[0] == raw[0];
    assert text[|text| - 1] == 61;
  }

  lemma PrintedEntryFacts(trim: Trim, id: Bytes, key: Key)
    requires KeepsVisible(trim) && ValidKeyID(id)
    ensures var entry := PrintEntry(id, key);
            EntryID(trim, entry) == Some(id) && EntryKey(trim, entry) == Some(key) && Printable(entry)
  {
    KeyTextFacts(key);
    hide EncodePadded, DecodePadded;
    var text, entry := EncodePadded(Std, key), PrintEntry(id, key);
    CutAtFirst(id, EQUALS, text);
    assert entry[0] == id[0] && entry[|entry| - 1] == text[|text| - 1];
  }

  lemma {:induction false} JoinedEnds(parts: seq<Bytes>, sep: byte)
    requires parts != [] && forall i :: 0 <= i < |parts| ==> parts[i] != [] && Graphic(parts[i][0]) && Graphic(parts[i][|parts[i]| - 1])
    ensures var s := Join(parts, sep); s != [] && Graphic(s[0]) && Graphic(s[|s| - 1])
  {
    if |parts| > 1 {
      JoinedEnds(parts[1..], sep);
    }
  }

  /** The ring listed by identifier, each exactly once. */
  ghost predicate Lists(ids: seq<Bytes>, keys: map<Bytes, Key>) {
    && (forall i :: 0 <= i < |ids| ==> ids[i] in keys && ValidKeyID(ids[i]))
    && (forall id :: id in keys ==> id in ids)
    && (forall i, j :: 0 <= i < j < |ids| ==> ids[i] != ids[j])
  }

  ghost predicate Describes(trim: Trim, entries: seq<Bytes>, ids: seq<Bytes>, keys: map<Bytes, Key>)
    requires Lists(ids, keys)
  {
    |entries| == |ids| && forall i :: 0 <= i < |ids| ==>
      EntryID(trim, entries[i]) == Some(ids[i]) && EntryKey(trim, entries[i]) == Some(keys[ids[i]])
  }

  /** Entries that describe a ring have no fault, and no other ring fits them. */
  lemma DescribedRingIsUnique(trim: Trim, entries: seq<Bytes>, ids: seq<Bytes>, keys: map<Bytes, Key>, ring: map<Bytes, Key>)
    requires Lists(ids, keys) && Describes(trim, entries, ids, keys)
    ensures forall i :: 0 <= i < |entries| ==> Fault(trim, entries, i) == None
    ensures Ring(trim, entries, |entries|, ring) ==> ring == keys
  {
    hide EntryID, EntryKey, ValidKeyID;
    if Ring(trim, entries, |entries|, ring) {
      forall id | id in keys ensures id in ring && ring[id] == keys[id] {
        var i :| 0 <= i < |ids| && ids[i] == id;
        assert EntryID(trim, entries[i]) == Some(id);
      }
    }
  }

  /** The text of a ring. */
  function PrintRing(ids: seq<Bytes>, keys: map<Bytes, Key>): Bytes
    requires ids != [] && forall i :: 0 <= i < |ids| ==> ids[i] in keys
  {
    Join(PrintEntries(ids, keys), COMMA)
  }

  ghost predicate Printable(entry: Bytes) {
    entry != [] && Graphic(entry[0]) && Graphic(entry[|entry| - 1]) && COMMA !in entry
  }

  lemma PrintedEntriesDescribe(trim: Trim, ids: seq<Bytes>, keys: map<Bytes, Key>)
    requires KeepsVisible(trim) && Lists(ids, keys)
    ensures Describes(trim, PrintEntries(ids, keys), ids, keys)
    ensures forall i :: 0 <= i < |ids| ==> Printable(PrintEntries(ids, keys)[i])
  {
    hide EntryID, EntryKey, ValidKeyID, PrintEntry, KeepsVisible;
    forall i | 0 <= i < |ids|
      ensures EntryID(trim, PrintEntries(ids, keys)[i]) == Some(ids[i])
      ensures EntryKey(trim, PrintEntries(ids, keys)[i]) == Some(keys[ids[i]])
      ensures Printable(PrintEntries(ids, keys)[i])
    {
      PrintedEntryFacts(trim, ids[i], keys[ids[i]]);
    }
  }

  lemma PrintedRingSplits(trim: Trim, entries: seq<Bytes>)
    requires KeepsVisible(trim) && entries != [] && forall i :: 0 <= i < |entries| ==> Printable(entries[i])
    ensures trim(Join(entries, COMMA)) != [] && Split(trim(Join(entries, COMMA)), COMMA) == entries
  {
    hide Split, Join;
    JoinedEnds(entries, COMMA);
    SplitJoin(entries, COMMA);
  }

  /**
   Writing a ring as comma-separated `id=base64` entries, in any order, gives an environment that is accepted and
   that describes exactly this ring.
   */
  lemma PrintedRingLoads(trim: Trim, enable: Bytes, ids: seq<Bytes>, keys: map<Bytes, Key>, active: Bytes)
    requires KeepsVisible(trim) && (trim(enable) == [] || ParseBool(trim(enable)).Some?)
    requires ids != [] && Lists(ids, keys) && active in keys
    ensures var env := Environment(enable, PrintRing(ids, keys), active);
            && Acceptable(trim, env) && Entries(trim, env) == PrintEntries(ids, keys)
            && forall ring :: Ring(trim, PrintEntries(ids, keys), |ids|, ring) ==> ring == keys
  {
    hide PrintEntries, Split, Join, EntryID, EntryKey, ParseBool, Fault, Ring, ValidKeyID, KeepsVisible, Acceptable, Printable;
    var env := Environment(enable, PrintRing(ids, keys), active);
    var entries := PrintEntries(ids, keys);
    PrintedEntriesDescribe(trim, ids, keys);
    PrintedRingSplits(trim, entries);
    forall ring: map<Bytes, Key> ensures Ring(trim, entries, |ids|, ring) ==> ring == keys {
      DescribedRingIsUnique(trim, entries, ids, keys, ring);
    }
    DescribedRingIsUnique(trim, entries, ids, keys, map[]);
    var at :| 0 <= at < |ids| && ids[at] == active;
    TrimKeepsKeyID(trim, active);
    AcceptableWhen(trim, env, at);
  }

  lemma AcceptableWhen(trim: Trim, env: Environment, at: nat)
    requires Enabled(trim, env).Some? && trim(env.keys) != [] && ValidKeyID(trim(env.activeKeyID))
    requires forall i :: 0 <= i < |Entries(trim, env)| ==> Fault(trim, Entries(trim, env), i) == None
    requires at < |Entries(trim, env)| && EntryID(trim, Entries(trim, env)[at]) == Some(trim(env.activeKeyID))
    ensures Acceptable(trim, env)
  {
  }

  lemma TrimKeepsKeyID(trim: Trim, id: Bytes)
    requires KeepsVisible(trim) && ValidKeyID(id)
    ensures trim(id) == id
  {
  }
}
