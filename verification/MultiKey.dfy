/**
 Management of a channel that holds several API keys.  The program keeps the keys in a list and their state in three
 sparse maps by index, which every delete has to reindex.  Each action is proved to do to these maps what a plain
 operation does to a list of records.
 */
module MultiKey {
  import opened Prelude

  const STATUS_ENABLED := 1
  const STATUS_MANUALLY_DISABLED := 2
  const STATUS_AUTO_DISABLED := 3

  /** One key with everything known about it. */
  datatype Record = Record(key: string, status: int, time: Option<int>, reason: Option<string>)

  // ----- Operations on the list of records

  function DisableEach(recs: seq<Record>): seq<Record> {
    seq(|recs|, i requires 0 <= i < |recs| =>
      if recs[i].status == STATUS_ENABLED then recs[i].(status := STATUS_MANUALLY_DISABLED) else recs[i])
  }

  function EnableEach(recs: seq<Record>): seq<Record> {
    seq(|recs|, i requires 0 <= i < |recs| => Enable(recs[i]))
  }

  function Enable(r: Record): Record {
    Record(r.key, STATUS_ENABLED, None, None)
  }

  /** Drops the automatically disabled keys; an enabled survivor also forgets when and why it was once disabled. */
  function Survivors(recs: seq<Record>): seq<Record> {
    if recs == [] then []
    else Survivors(recs[..|recs| - 1]) + Survivor(recs[|recs| - 1])
  }

  function Survivor(r: Record): seq<Record> {
    if r.status == STATUS_AUTO_DISABLED then []
    else if r.status == STATUS_ENABLED then [Enable(r)]
    else [r]
  }

  datatype Action =
    | DisableKey(index: Option<int>)
    | EnableKey(index: Option<int>)
    | EnableAllKeys
    | DisableAllKeys
    | DeleteKey(index: Option<int>)
    | DeleteDisabledKeys
    | MarkKey(usingKey: string, status: int, reason: string, now: int)

  /** What an action does to the records; a refused action does nothing. */
  function Perform(recs: seq<Record>, act: Action): seq<Record> {
    match act
    case DisableKey(Some(i)) => if 0 <= i < |recs| then recs[i := recs[i].(status := STATUS_MANUALLY_DISABLED)] else recs
    case EnableKey(Some(i)) => if 0 <= i < |recs| then recs[i := Enable(recs[i])] else recs
    case EnableAllKeys => EnableEach(recs)
    case DisableAllKeys => DisableEach(recs)
    case DeleteKey(Some(i)) => if 0 <= i < |recs| && |recs| > 1 then recs[..i] + recs[i + 1..] else recs
    case DeleteDisabledKeys => if AutoDisabled(recs) then Survivors(recs) else recs
    case MarkKey(usingKey, status, reason, now) =>
      var i := FirstIndex(recs, usingKey);
      if i == |recs| then recs
      else if status == STATUS_ENABLED then recs[i := recs[i].(status := STATUS_ENABLED)]
      else recs[i := Record(usingKey, status, Some(now), Some(reason))]
    case _ => recs
  }

  predicate AutoDisabled(recs: seq<Record>) {
    exists i :: 0 <= i < |recs| && recs[i].status == STATUS_AUTO_DISABLED
  }

  /** Whether the program reports success. */
  predicate Succeeds(recs: seq<Record>, act: Action) {
    match act
    case DisableKey(i) => i.Some? && 0 <= i.value < |recs|
    case EnableKey(i) => i.Some? && 0 <= i.value < |recs|
    case EnableAllKeys => true
    case DisableAllKeys => exists i :: 0 <= i < |recs| && recs[i].status == STATUS_ENABLED
    case DeleteKey(i) => i.Some? && 0 <= i.value < |recs| && |recs| > 1
    case DeleteDisabledKeys => AutoDisabled(recs)
    case MarkKey(usingKey, _, _, _) => exists i :: 0 <= i < |recs| && recs[i].key == usingKey
  }

  /** The first record of a key, or the number of records. */
  function FirstIndex(recs: seq<Record>, key: string): (i: nat)
    ensures i <= |recs| && (i < |recs| ==> recs[i].key == key)
    ensures forall j :: 0 <= j < i ==> recs[j].key != key
  {
    if recs == [] || recs[0].key == key then 0 else 1 + FirstIndex(recs[1..], key)
  }

  predicate IsEnabled(recs: seq<Record>, i: int) {
    0 <= i < |recs| && recs[i].status == STATUS_ENABLED
  }

  ghost predicate SomeEnabled(recs: seq<Record>) {
    exists i :: IsEnabled(recs, i)
  }

  // ----- The channel's own status

  const ALL_DISABLED := "All keys are disabled"

  /** The status of the channel as a whole, with the reason and time last noted for it. */
  datatype Standing = Standing(status: int, note: Option<(string, int)>)

  /**
   Marking a key also moves the channel: it is disabled with its last key and enabled with a recovered one.  Without
   keys, or with an empty and unknown key, the mark is meant for the channel itself.
   */
  ghost function Marked(st: Standing, recs: seq<Record>, usingKey: string, status: int, reason: string, now: int): Standing {
    if recs == [] then st.(status := status)
    else if FirstIndex(recs, usingKey) == |recs| then
      if usingKey != "" then st else Standing(status, Some((reason, now)))
    else if !SomeEnabled(Perform(recs, MarkKey(usingKey, status, reason, now))) then
      Standing(STATUS_AUTO_DISABLED, Some((ALL_DISABLED, now)))
    else if status == STATUS_ENABLED then st.(status := STATUS_ENABLED)
    else st
  }

  /** Management actions do not touch the channel's status. */
  ghost function Moved(st: Standing, recs: seq<Record>, act: Action): Standing {
    match act
    case MarkKey(usingKey, status, reason, now) => Marked(st, recs, usingKey, status, reason, now)
    case _ => st
  }

  // ----- The representation

  function Lookup<T>(m: map<int, T>, i: int): Option<T> {
    if i in m then Some(m[i]) else None
  }

  /** An index without an entry is enabled. */
  function StatusAt(m: map<int, int>, i: int): int {
    if i in m then m[i] else STATUS_ENABLED
  }

  function Records(keys: seq<string>, statuses: map<int, int>, times: map<int, int>, reasons: map<int, string>): (r: seq<Record>)
    ensures |r| == |keys|
    ensures forall i :: 0 <= i < |r| ==> r[i] == Record(keys[i], StatusAt(statuses, i), Lookup(times, i), Lookup(reasons, i))
  {
    seq(|keys|, i requires 0 <= i < |keys| => Record(keys[i], StatusAt(statuses, i), Lookup(times, i), Lookup(reasons, i)))
  }

  ghost predicate Below<T>(m: map<int, T>, n: int) {
    forall i :: i in m ==> 0 <= i < n
  }

  /** A map extended at the next index if there is something to put there. */
  function Extend<T>(m: map<int, T>, i: int, v: Option<T>): map<int, T> {
    if v.Some? then m[i := v.value] else m
  }

  /** Appending one key and its entries at the next index appends one record. */
  lemma AppendRecord(keys: seq<string>, s: map<int, int>, t: map<int, int>, r: map<int, string>,
                     key: string, status: Option<int>, time: Option<int>, reason: Option<string>)
    requires Below(s, |keys|) && Below(t, |keys|) && Below(r, |keys|)
    ensures Records(keys + [key], Extend(s, |keys|, status), Extend(t, |keys|, time), Extend(r, |keys|, reason))
         == Records(keys, s, t, r)
            + [Record(key, if status.Some? then status.value else STATUS_ENABLED, time, reason)]
  {
  }

  // ----- What an edit of the keys leaves behind

  /** The entries beyond the keys.  An edit that shortens the key list cuts the statuses only, so they can exist. */
  function Hidden<T>(m: map<int, T>, n: nat): map<int, T> {
    map i | i in m && !(0 <= i < n) :: m[i]
  }

  /** The records, with the times and reasons that are stored for indices without a key. */
  datatype KeyState = KeyState(recs: seq<Record>, times: map<int, int>, reasons: map<int, string>)

  datatype Operation = Act(act: Action) | EditKeys(keys: seq<string>)

  /** Deletions and enabling all keys build new maps, without hidden entries. */
  ghost predicate Rebuilds(recs: seq<Record>, act: Action) {
    act.EnableAllKeys? || ((act.DeleteKey? || act.DeleteDisabledKeys?) && Succeeds(recs, act))
  }

  /** After an edit each index keeps what was known about it, whichever key now stands there. */
  ghost function Edited(s: KeyState, keys: seq<string>): KeyState {
    KeyState(
      seq(|keys|, i requires 0 <= i < |keys| =>
        if i < |s.recs| then s.recs[i].(key := keys[i])
        else Record(keys[i], STATUS_ENABLED, Lookup(s.times, i), Lookup(s.reasons, i))),
      Hidden(s.times, |keys|) + TimesFrom(s.recs, |keys|),
      Hidden(s.reasons, |keys|) + ReasonsFrom(s.recs, |keys|))
  }

  function TimesFrom(recs: seq<Record>, n: nat): map<int, int> {
    map i | n <= i < |recs| && recs[i].time.Some? :: recs[i].time.value
  }

  function ReasonsFrom(recs: seq<Record>, n: nat): map<int, string> {
    map i | n <= i < |recs| && recs[i].reason.Some? :: recs[i].reason.value
  }

  ghost function StateOf(keys: seq<string>, s: map<int, int>, t: map<int, int>, r: map<int, string>): KeyState {
    KeyState(Records(keys, s, t, r), Hidden(t, |keys|), Hidden(r, |keys|))
  }

  function CutTo(statuses: map<int, int>, size: nat): map<int, int> {
    map i | i in statuses && i < size :: statuses[i]
  }

  /** Replacing the keys and cutting the statuses is what an edit means. */
  lemma EditRefines(keys: seq<string>, s: map<int, int>, t: map<int, int>, r: map<int, string>, newKeys: seq<string>)
    requires Below(s, |keys|)
    ensures StateOf(newKeys, CutTo(s, |newKeys|), t, r) == Edited(StateOf(keys, s, t, r), newKeys)
  {
    EditedRecords(keys, s, t, r, newKeys);
    EditedTimes(keys, s, t, r, |newKeys|);
    EditedReasons(keys, s, t, r, |newKeys|);
  }

  lemma EditedRecords(keys: seq<string>, s: map<int, int>, t: map<int, int>, r: map<int, string>, newKeys: seq<string>)
    requires Below(s, |keys|)
    ensures Records(newKeys, CutTo(s, |newKeys|), t, r) == Edited(StateOf(keys, s, t, r), newKeys).recs
  {
    hide TimesFrom, ReasonsFrom;
    var recs, edited := Records(newKeys, CutTo(s, |newKeys|), t, r), Edited(StateOf(keys, s, t, r), newKeys).recs;
    forall i | 0 <= i < |newKeys| ensures recs[i] == edited[i] {
    }
  }

  lemma EditedTimes(keys: seq<string>, s: map<int, int>, t: map<int, int>, r: map<int, string>, n: nat)
    ensures Hidden(t, n) == Hidden(Hidden(t, |keys|), n) + TimesFrom(Records(keys, s, t, r), n)
  {
    var recs := Records(keys, s, t, r);
    assert forall i :: 0 <= i < |recs| ==> recs[i].time == Lookup(t, i);
    hide Records;
  }

  lemma EditedReasons(keys: seq<string>, s: map<int, int>, t: map<int, int>, r: map<int, string>, n: nat)
    ensures Hidden(r, n) == Hidden(Hidden(r, |keys|), n) + ReasonsFrom(Records(keys, s, t, r), n)
  {
    var recs := Records(keys, s, t, r);
    assert forall i :: 0 <= i < |recs| ==> recs[i].reason == Lookup(r, i);
    hide Records;
  }

  /** An edit without keys leaves the stored ones. */
  ghost function Next(s: KeyState, op: Operation): KeyState {
    match op
    case Act(act) =>
      if Rebuilds(s.recs, act) then KeyState(Perform(s.recs, act), map[], map[]) else s.(recs := Perform(s.recs, act))
    case EditKeys(keys) => if keys == [] then s else Edited(s, keys)
  }

  class Channel {
    var keys: seq<string>
    var size: int
    var statuses: map<int, int>
    var times: map<int, int>
    var reasons: map<int, string>
    var status: int
    var note: Option<(string, int)>

    /** The recorded size is the number of keys, and no status is stored beyond it. */
    ghost predicate Valid()
      reads this
    {
      size == |keys| && Below(statuses, size)
    }

    ghost function State(): KeyState
      reads this
    {
      StateOf(keys, statuses, times, reasons)
    }

    function View(): seq<Record>
      reads this
    {
      Records(keys, statuses, times, reasons)
    }

    function Own(): Standing
      reads this
    {
      Standing(status, note)
    }

    constructor (keys: seq<string>)
      ensures Valid() && this.keys == keys && Own() == Standing(STATUS_ENABLED, None)
      ensures forall i :: 0 <= i < |keys| ==> View()[i] == Record(keys[i], STATUS_ENABLED, None, None)
    {
      this.keys, size := keys, |keys|;
      statuses, times, reasons := map[], map[], map[];
      status, note := STATUS_ENABLED, None;
    }

    /** The mutating cases of `ManageMultiKeys`: each refines its list operation, and the representation stays in range. */
    method Manage(act: Action) returns (ok: bool)
      requires Valid()
      modifies this
      ensures Valid() && View() == Perform(old(View()), act) && State() == Next(old(State()), Act(act))
      ensures ok == Succeeds(old(View()), act)
      ensures Own() == Moved(old(Own()), old(View()), act)
    {
      hide Records, DisableEach, EnableEach, Survivors, Marked, Hidden;
      match act
      case DisableKey(index) =>
        if index.None? || index.value < 0 || index.value >= size {
          return false;
        }
        DisableOne(index.value);
        ok := true;
      case EnableKey(index) =>
        if index.None? || index.value < 0 || index.value >= size {
          return false;
        }
        EnableOne(index.value);
        ok := true;
      case EnableAllKeys =>
        EnableAll();
        ok := true;
      case DisableAllKeys =>
        ok := DisableAll();
      case DeleteKey(index) =>
        if index.None? || index.value < 0 || index.value >= size {
          return false;
        }
        ok := Delete(index.value);
      case DeleteDisabledKeys =>
        ok := DeleteDisabled();
      case MarkKey(usingKey, status, reason, now) =>
        ok := Mark(usingKey, status, reason, now);
    }

    method DisableOne(i: int)
      requires Valid() && 0 <= i < size
      modifies this`statuses
      ensures Valid() && View() == old(View())[i := old(View())[i].(status := STATUS_MANUALLY_DISABLED)]
    {
      statuses := statuses[i := STATUS_MANUALLY_DISABLED];
    }

    method EnableOne(i: int)
      requires Valid() && 0 <= i < size
      modifies this`statuses, this`times, this`reasons
      ensures Valid() && View() == old(View())[i := Enable(old(View())[i])]
      ensures Hidden(times, size) == old(Hidden(times, size)) && Hidden(reasons, size) == old(Hidden(reasons, size))
    {
      statuses, times, reasons := statuses - {i}, times - {i}, reasons - {i};
    }

    method EnableAll()
      requires Valid()
      modifies this`statuses, this`times, this`reasons
      ensures Valid() && View() == EnableEach(old(View())) && times == map[] && reasons == map[]
      ensures Hidden(times, size) == map[] && Hidden(reasons, size) == map[]
    {
      statuses, times, reasons := map[], map[], map[];
    }

    /** Editing the channel with a new key list: the statuses beyond it are deleted, times and reasons are not. */
    method Edit(newKeys: seq<string>)
      requires Valid()
      modifies this`keys, this`size, this`statuses
      ensures Valid() && State() == Next(old(State()), EditKeys(newKeys))
    {
      hide StateOf, Edited;
      if newKeys == [] {
        return;
      }
      EditRefines(keys, statuses, times, reasons, newKeys);
      keys, size := newKeys, |newKeys|;
      statuses := CutTo(statuses, size);
    }

    /** `handlerMultiKeyUpdate`, by which the relay disables a failing key and the channel test re-enables a recovered one. */
    method Mark(usingKey: string, status: int, reason: string, now: int) returns (ok: bool)
      requires Valid()
      modifies this
      ensures Valid() && View() == Perform(old(View()), MarkKey(usingKey, status, reason, now))
      ensures Hidden(times, size) == old(Hidden(times, size)) && Hidden(reasons, size) == old(Hidden(reasons, size))
      ensures ok == Succeeds(old(View()), MarkKey(usingKey, status, reason, now)) && size == old(size)
      ensures Own() == Marked(old(Own()), old(View()), usingKey, status, reason, now)
    {
      if |keys| == 0 {
        this.status := status;
        return false;
      }
      ok := MarkRecord(usingKey, status, reason, now);
      if !ok {
        if usingKey == "" {
          this.status, note := status, Some((reason, now));
        }
        return;
      }
      var enabled := HasEnabled();
      if !enabled {
        this.status, note := STATUS_AUTO_DISABLED, Some((ALL_DISABLED, now));
      } else if status == STATUS_ENABLED {
        this.status := STATUS_ENABLED;
      }
    }

    /** `hasEnabledMultiKey`. */
    method HasEnabled() returns (enabled: bool)
      ensures enabled <==> SomeEnabled(View())
    {
      for i := 0 to |keys|
        invariant forall j :: 0 <= j < i ==> !IsEnabled(View(), j)
      {
        if StatusAt(statuses, i) == STATUS_ENABLED {
          assert IsEnabled(View(), i);
          return true;
        }
      }
      return false;
    }

    /** The part of `handlerMultiKeyUpdate` that concerns the key. */
    method MarkRecord(usingKey: string, status: int, reason: string, now: int) returns (ok: bool)
      requires Valid()
      modifies this`statuses, this`times, this`reasons
      ensures Valid() && View() == Perform(old(View()), MarkKey(usingKey, status, reason, now))
      ensures Hidden(times, size) == old(Hidden(times, size)) && Hidden(reasons, size) == old(Hidden(reasons, size))
      ensures ok <==> FirstIndex(old(View()), usingKey) < |old(View())|
    {
      hide Perform, Records, Hidden;
      var keyIndex := 0;
      while keyIndex < |keys| && keys[keyIndex] != usingKey
        invariant 0 <= keyIndex <= |keys| && unchanged(this)
        invariant forall j :: 0 <= j < keyIndex ==> View()[j].key != usingKey
      {
        keyIndex := keyIndex + 1;
      }
      assert keyIndex < |keys| ==> View()[keyIndex].key == usingKey;
      assert keyIndex == FirstIndex(View(), usingKey);
      if keyIndex == |keys| {
        MarkUnknown(View(), MarkKey(usingKey, status, reason, now));
        return false;
      }
      MarkFirst(View(), keyIndex, status, reason, now);
      RecordsChangeAt(keys, statuses, times, reasons, keyIndex, status, now, reason);
      if status == STATUS_ENABLED {
        statuses := statuses - {keyIndex};
      } else {
        statuses := statuses[keyIndex := status];
        reasons := reasons[keyIndex := reason];
        times := times[keyIndex := now];
      }
      ok := true;
    }

    /** The `disable_all_keys` action. */
    method DisableAll() returns (ok: bool)
      requires Valid()
      modifies this`statuses
      ensures Valid() && View() == DisableEach(old(View()))
      ensures ok == Succeeds(old(View()), DisableAllKeys)
    {
      var disabledCount := 0;
      ghost var recs := View();
      for i := 0 to size
        invariant Valid()
        invariant forall j :: 0 <= j < i ==> View()[j] == DisableEach(recs)[j]
        invariant forall j :: i <= j < size ==> View()[j] == recs[j]
        invariant disabledCount > 0 <==> exists j :: 0 <= j < i && recs[j].status == STATUS_ENABLED
        invariant disabledCount >= 0
      {
        assert View()[i] == recs[i];
        if StatusAt(statuses, i) == STATUS_ENABLED {
          statuses := statuses[i := STATUS_MANUALLY_DISABLED];
          disabledCount := disabledCount + 1;
          assert recs[i].status == STATUS_ENABLED;
        }
      }
      ok := disabledCount > 0;
    }

    method Delete(keyIndex: int) returns (ok: bool)
      requires Valid() && 0 <= keyIndex < size
      modifies this`keys, this`size, this`statuses, this`times, this`reasons
      ensures Valid() && ok == (old(size) > 1)
      ensures ok ==> Hidden(times, size) == map[] && Hidden(reasons, size) == map[]
      ensures !ok ==> size == old(size) && times == old(times) && reasons == old(reasons)
      ensures View() == if ok then old(View())[..keyIndex] + old(View())[keyIndex + 1..] else old(View())
    {
      var remaining, s, t, r := ReindexWithout(keys, statuses, times, reasons, keyIndex);
      if |remaining| == 0 {
        return false;
      }
      keys, size := remaining, |remaining|;
      statuses, times, reasons := s, t, r;
      ok := true;
    }

    method DeleteDisabled() returns (ok: bool)
      requires Valid()
      modifies this`keys, this`size, this`statuses, this`times, this`reasons
      ensures Valid() && ok == AutoDisabled(old(View()))
      ensures ok ==> Hidden(times, size) == map[] && Hidden(reasons, size) == map[]
      ensures !ok ==> size == old(size) && times == old(times) && reasons == old(reasons)
      ensures View() == if ok then Survivors(old(View())) else old(View())
    {
      var remaining, s, t, r, deletedCount := ReindexSurvivors(keys, statuses, times, reasons);
      if deletedCount == 0 {
        return false;
      }
      keys, size := remaining, |remaining|;
      statuses, times, reasons := s, t, r;
      ok := true;
    }
  }

  lemma MarkUnknown(recs: seq<Record>, act: Action)
    requires act.MarkKey? && FirstIndex(recs, act.usingKey) == |recs|
    ensures Perform(recs, act) == recs
  {
  }

  /** What the two branches of a mark do to the maps. */
  lemma RecordsChangeAt(keys: seq<string>, s: map<int, int>, t: map<int, int>, r: map<int, string>,
                        i: nat, status: int, now: int, reason: string)
    requires i < |keys|
    ensures var recs := Records(keys, s, t, r);
            && Records(keys, s - {i}, t, r) == recs[i := recs[i].(status := STATUS_ENABLED)]
            && Records(keys, s[i := status], t[i := now], r[i := reason])
               == recs[i := Record(keys[i], status, Some(now), Some(reason))]
    ensures Hidden(t[i := now], |keys|) == Hidden(t, |keys|) && Hidden(r[i := reason], |keys|) == Hidden(r, |keys|)
  {
  }

  lemma MarkFirst(recs: seq<Record>, i: int, status: int, reason: string, now: int)
    requires 0 <= i < |recs| && FirstIndex(recs, recs[i].key) == i
    ensures Perform(recs, MarkKey(recs[i].key, status, reason, now))
         == recs[i := if status == STATUS_ENABLED then recs[i].(status := STATUS_ENABLED)
                      else Record(recs[i].key, status, Some(now), Some(reason))]
  {
  }

  /** The first `n` records without the one at `k`. */
  ghost function Skipping(recs: seq<Record>, k: nat, n: nat): seq<Record>
    requires n <= |recs|
  {
    if n <= k then recs[..n] else recs[..k] + recs[k + 1..n]
  }

  lemma SkippingEnds(recs: seq<Record>, k: nat)
    requires k < |recs|
    ensures Skipping(recs, k, 0) == [] && Skipping(recs, k, |recs|) == recs[..k] + recs[k + 1..]
  {
  }

  lemma SkippingGrows(recs: seq<Record>, k: nat, i: nat)
    requires i < |recs|
    ensures Skipping(recs, k, i + 1) == Skipping(recs, k, i) + if i == k then [] else [recs[i]]
  {
  }

  /** The loop of `delete_key`: the maps move down by one from the deleted index on. */
  method ReindexWithout(keys: seq<string>, statuses: map<int, int>, times: map<int, int>, reasons: map<int, string>, keyIndex: int)
    returns (remaining: seq<string>, s: map<int, int>, t: map<int, int>, r: map<int, string>)
    requires 0 <= keyIndex < |keys|
    ensures |remaining| == |keys| - 1
    ensures Below(s, |remaining|) && Below(t, |remaining|) && Below(r, |remaining|)
    ensures var recs := Records(keys, statuses, times, reasons);
            Records(remaining, s, t, r) == recs[..keyIndex] + recs[keyIndex + 1..]
  {
    hide Records, Skipping;
    remaining, s, t, r := [], map[], map[], map[];
    ghost var recs := Records(keys, statuses, times, reasons);
    SkippingEnds(recs, keyIndex);
    for i := 0 to |keys|
      invariant |remaining| == if i <= keyIndex then i else i - 1
      invariant Below(s, |remaining|) && Below(t, |remaining|) && Below(r, |remaining|)
      invariant Records(remaining, s, t, r) == Skipping(recs, keyIndex, i)
    {
      SkippingGrows(recs, keyIndex, i);
      if i == keyIndex {
        continue;
      }
      var newIndex := |remaining|;
      var status := if i in statuses && statuses[i] != STATUS_ENABLED then Some(statuses[i]) else None;
      AppendRecord(remaining, s, t, r, keys[i], status, Lookup(times, i), Lookup(reasons, i));
      remaining := remaining + [keys[i]];
      s, t, r := Extend(s, newIndex, status), Extend(t, newIndex, Lookup(times, i)), Extend(r, newIndex, Lookup(reasons, i));
    }
  }

  lemma SurvivorsOfNone()
    ensures Survivors([]) == []
  {
  }

  lemma SurvivorsAppend(recs: seq<Record>, i: nat)
    requires i < |recs|
    ensures Survivors(recs[..i + 1]) == Survivors(recs[..i]) + Survivor(recs[i])
  {
    assert recs[..i + 1][..i] == recs[..i];
  }

  /** The loop of `delete_disabled_keys`. */
  method ReindexSurvivors(keys: seq<string>, statuses: map<int, int>, times: map<int, int>, reasons: map<int, string>)
    returns (remaining: seq<string>, s: map<int, int>, t: map<int, int>, r: map<int, string>, deletedCount: nat)
    ensures Below(s, |remaining|) && Below(t, |remaining|) && Below(r, |remaining|)
    ensures Records(remaining, s, t, r) == Survivors(Records(keys, statuses, times, reasons))
    ensures deletedCount == |keys| - |remaining|
    ensures deletedCount > 0 <==> AutoDisabled(Records(keys, statuses, times, reasons))
  {
    hide Survivors, Records;
    remaining, s, t, r, deletedCount := [], map[], map[], map[], 0;
    SurvivorsOfNone();
    ghost var recs := Records(keys, statuses, times, reasons);
    assert recs[..0] == [];
    for i := 0 to |keys|
      invariant Below(s, |remaining|) && Below(t, |remaining|) && Below(r, |remaining|)
      invariant Records(remaining, s, t, r) == Survivors(recs[..i])
      invariant deletedCount == i - |remaining|
      invariant deletedCount > 0 <==> exists j :: 0 <= j < i && recs[j].status == STATUS_AUTO_DISABLED
    {
      SurvivorsAppend(recs, i);
      var status := StatusAt(statuses, i);
      assert recs[i] == Record(keys[i], status, Lookup(times, i), Lookup(reasons, i));
      if status == STATUS_AUTO_DISABLED {
        deletedCount := deletedCount + 1;
      } else {
        var newIndex := |remaining|;
        var newStatus := if status != STATUS_ENABLED then Some(status) else None;
        var time := if status != STATUS_ENABLED then Lookup(times, i) else None;
        var reason := if status != STATUS_ENABLED then Lookup(reasons, i) else None;
        AppendRecord(remaining, s, t, r, keys[i], newStatus, time, reason);
        remaining := remaining + [keys[i]];
        s, t, r := Extend(s, newIndex, newStatus), Extend(t, newIndex, time), Extend(r, newIndex, reason);
      }
    }
    assert recs[..|recs|] == recs;
  }

  // ----- What the list operations guarantee

  ghost predicate Ascending(xs: seq<int>, n: nat) {
    && (forall i :: 0 <= i < |xs| ==> 0 <= xs[i] < n)
    && (forall i, j :: 0 <= i < j < |xs| ==> xs[i] < xs[j])
  }

  function Identity(n: nat): (xs: seq<int>)
    ensures |xs| == n && forall i :: 0 <= i < n ==> xs[i] == i
  {
    seq(n, i => i)
  }

  /** The indices of the keys that are not automatically disabled. */
  function Kept(recs: seq<Record>): seq<int> {
    if recs == [] then []
    else Kept(recs[..|recs| - 1]) + if recs[|recs| - 1].status == STATUS_AUTO_DISABLED then [] else [|recs| - 1]
  }

  /** Where each record of the result comes from. */
  function Origins(recs: seq<Record>, act: Action): seq<int> {
    match act
    case DeleteKey(Some(i)) =>
      if 0 <= i < |recs| && |recs| > 1 then Identity(|recs|)[..i] + Identity(|recs|)[i + 1..] else Identity(|recs|)
    case DeleteDisabledKeys => if AutoDisabled(recs) then Kept(recs) else Identity(|recs|)
    case _ => Identity(|recs|)
  }

  /** A record moved but unharmed: same key and status, and while disabled the same time and reason. */
  ghost predicate Unharmed(before: Record, after: Record) {
    && after.key == before.key && after.status == before.status
    && (before.status != STATUS_ENABLED ==> after.time == before.time && after.reason == before.reason)
  }

  /** Survivors and their indices belong together. */
  ghost predicate Matches(recs: seq<Record>, kept: seq<int>, after: seq<Record>) {
    && |after| == |kept| && Ascending(kept, |recs|)
    && forall j :: 0 <= j < |kept| ==> Unharmed(recs[kept[j]], after[j])
  }

  lemma MatchesGrows(front: seq<Record>, last: Record, kept: seq<int>, after: seq<Record>)
    requires Matches(front, kept, after)
    ensures Matches(front + [last], kept, after)
    ensures forall r :: Unharmed(last, r) ==> Matches(front + [last], kept + [|front|], after + [r])
  {
  }

  lemma {:induction false} SurvivorsFacts(recs: seq<Record>)
    ensures Matches(recs, Kept(recs), Survivors(recs))
  {
    if recs != [] {
      var front, last := recs[..|recs| - 1], recs[|recs| - 1];
      assert recs == front + [last];
      SurvivorsFacts(front);
      MatchesGrows(front, last, Kept(front), Survivors(front));
    }
  }

  lemma {:induction false} KeptFacts(recs: seq<Record>)
    ensures forall i :: 0 <= i < |recs| ==> (recs[i].status != STATUS_AUTO_DISABLED <==> i in Kept(recs))
    ensures forall i :: i in Kept(recs) ==> 0 <= i < |recs|
  {
    if recs != [] {
      KeptFacts(recs[..|recs| - 1]);
    }
  }

  /**
   Deleting keeps the survivors in order and unharmed, and removes exactly what it should: the named key, or the
   automatically disabled ones.
   */
  lemma DeletesAreClean(recs: seq<Record>, act: Action)
    requires act.DeleteKey? || act.DeleteDisabledKeys?
    requires Succeeds(recs, act)
    ensures var o, after := Origins(recs, act), Perform(recs, act);
            && |o| == |after| && Ascending(o, |recs|)
            && (forall j :: 0 <= j < |o| ==> Unharmed(recs[o[j]], after[j]))
            && (forall i :: 0 <= i < |recs| ==>
                  (i in o <==> if act.DeleteKey? then i != act.index.value else recs[i].status != STATUS_AUTO_DISABLED))
  {
    if act.DeleteDisabledKeys? {
      SurvivorsFacts(recs);
      KeptFacts(recs);
    } else {
      var k, o := act.index.value, Origins(recs, act);
      forall i | 0 <= i < |recs| ensures i in o <==> i != k {
        if i < k {
          assert o[i] == i;
        } else if i > k {
          assert o[i - 1] == i;
        }
      }
    }
  }

  lemma UpdatesKeepKeys(recs: seq<Record>, act: Action)
    requires !((act.DeleteKey? || act.DeleteDisabledKeys?) && Succeeds(recs, act))
    ensures Origins(recs, act) == Identity(|recs|) && |Perform(recs, act)| == |recs|
    ensures forall j :: 0 <= j < |recs| ==> Perform(recs, act)[j].key == recs[j].key
  {
    hide Survivors, Kept, Identity;
  }

  lemma OriginsFacts(recs: seq<Record>, act: Action)
    ensures var o, after := Origins(recs, act), Perform(recs, act);
            && |o| == |after| && Ascending(o, |recs|)
            && forall j :: 0 <= j < |o| ==> after[j].key == recs[o[j]].key
  {
    hide Perform, Origins;
    if (act.DeleteKey? || act.DeleteDisabledKeys?) && Succeeds(recs, act) {
      DeletesAreClean(recs, act);
    } else {
      UpdatesKeepKeys(recs, act);
    }
  }

  function Run(recs: seq<Record>, acts: seq<Action>): seq<Record>
    decreases |acts|
  {
    if acts == [] then recs else Run(Perform(recs, acts[0]), acts[1..])
  }

  /** Over any run of actions the keys that are left are some of the original keys, in their original order. */
  lemma {:induction false} RunKeepsKeyOrder(recs: seq<Record>, acts: seq<Action>) returns (o: seq<int>)
    ensures |o| == |Run(recs, acts)| && Ascending(o, |recs|)
    ensures forall j :: 0 <= j < |o| ==> Run(recs, acts)[j].key == recs[o[j]].key
    decreases |acts|
  {
    if acts == [] {
      o := Identity(|recs|);
    } else {
      OriginsFacts(recs, acts[0]);
      var first := Origins(recs, acts[0]);
      var rest := RunKeepsKeyOrder(Perform(recs, acts[0]), acts[1..]);
      o := seq(|rest|, j requires 0 <= j < |rest| => first[rest[j]]);
    }
  }

  /** `delete_disabled_keys` leaves nothing more for itself to delete. */
  lemma DeleteDisabledIsComplete(recs: seq<Record>)
    ensures !AutoDisabled(Perform(recs, DeleteDisabledKeys))
  {
    SurvivorsFacts(recs);
    KeptFacts(recs);
    assert forall j :: 0 <= j < |Kept(recs)| ==> Kept(recs)[j] in Kept(recs);
  }
  // ----- The actions, key by key

  /** Disabling all keys gives status 2 to the enabled ones, and changes nothing else: none becomes status 3. */
  lemma DisableAllMeans(recs: seq<Record>)
    ensures var after := Perform(recs, DisableAllKeys);
            && |after| == |recs|
            && (forall i :: 0 <= i < |recs| ==>
                  after[i] == Record(recs[i].key, if recs[i].status == 1 then 2 else recs[i].status, recs[i].time, recs[i].reason))
            && (AutoDisabled(after) <==> AutoDisabled(recs))
            && (Succeeds(recs, DisableAllKeys) <==> after != recs)
  {
    var after := Perform(recs, DisableAllKeys);
    assert forall i :: 0 <= i < |recs| ==> (after[i].status == 3 <==> recs[i].status == 3);
    if Succeeds(recs, DisableAllKeys) {
      var i :| 0 <= i < |recs| && recs[i].status == STATUS_ENABLED;
      assert after[i] != recs[i];
    }
  }

  /** Enabling all keys gives status 1 to every key and forgets all times and reasons. */
  lemma EnableAllMeans(recs: seq<Record>)
    ensures var after := Perform(recs, EnableAllKeys);
            && |after| == |recs| && Succeeds(recs, EnableAllKeys)
            && forall i :: 0 <= i < |recs| ==> after[i] == Record(recs[i].key, 1, None, None)
  {
  }

  /** Disabling or enabling one key changes that key alone, and is refused exactly for a missing or invalid index. */
  lemma OneKeyMeans(recs: seq<Record>, index: Option<int>)
    ensures var inRange := index.Some? && 0 <= index.value < |recs|;
            && Succeeds(recs, DisableKey(index)) == Succeeds(recs, EnableKey(index)) == inRange
            && |Perform(recs, DisableKey(index))| == |Perform(recs, EnableKey(index))| == |recs|
            && forall i :: 0 <= i < |recs| ==>
                 if inRange && i == index.value then
                   && Perform(recs, DisableKey(index))[i] == Record(recs[i].key, 2, recs[i].time, recs[i].reason)
                   && Perform(recs, EnableKey(index))[i] == Record(recs[i].key, 1, None, None)
                 else Perform(recs, DisableKey(index))[i] == Perform(recs, EnableKey(index))[i] == recs[i]
  {
  }

  /** A deletion succeeds exactly if it shortens the list; one key alone is deleted only if another is left. */
  lemma DeletionSucceedsIff(recs: seq<Record>, act: Action)
    requires act.DeleteKey? || act.DeleteDisabledKeys?
    ensures Succeeds(recs, act) <==> |Perform(recs, act)| < |recs|
    ensures act.DeleteKey? ==> (Succeeds(recs, act) <==> act.index.Some? && 0 <= act.index.value < |recs| && |recs| >= 2)
    ensures act.DeleteDisabledKeys? ==> (Succeeds(recs, act) <==> exists i :: 0 <= i < |recs| && recs[i].status == 3)
  {
    SurvivorsFacts(recs);
    KeptFacts(recs);
    KeptIsShorter(recs);
  }

  lemma {:induction false} KeptIsShorter(recs: seq<Record>)
    ensures |Kept(recs)| <= |recs| && (AutoDisabled(recs) ==> |Kept(recs)| < |recs|)
  {
    if recs != [] {
      var front := recs[..|recs| - 1];
      KeptIsShorter(front);
      assert AutoDisabled(recs) ==> AutoDisabled(front) || recs[|recs| - 1].status == STATUS_AUTO_DISABLED by {
        assert forall i :: 0 <= i < |front| ==> front[i] == recs[i];
      }
    }
  }

  /** A mark changes the first record of the key and no other, and succeeds exactly if there is one. */
  lemma MarkMeans(recs: seq<Record>, usingKey: string, status: int, reason: string, now: int, i: nat)
    requires i < |recs|
    ensures var act := MarkKey(usingKey, status, reason, now);
            var first := recs[i].key == usingKey && forall j :: 0 <= j < i ==> recs[j].key != usingKey;
            && |Perform(recs, act)| == |recs| && (first ==> Succeeds(recs, act))
            && Perform(recs, act)[i] == if !first then recs[i]
                                        else if status == 1 then Record(usingKey, 1, recs[i].time, recs[i].reason)
                                        else Record(usingKey, status, Some(now), Some(reason))
  {
  }

  /**
   What a mark does to the channel as a whole: with its last enabled key gone it gets status 3 and a note, with a key
   re-enabled status 1; an unknown key changes nothing, except that an empty one stands for the channel itself.
   */
  lemma StandingMeans(st: Standing, recs: seq<Record>, usingKey: string, status: int, reason: string, now: int)
    ensures var act := MarkKey(usingKey, status, reason, now);
            var after := Perform(recs, act);
            var known, left := exists i :: 0 <= i < |recs| && recs[i].key == usingKey, exists i :: 0 <= i < |after| && after[i].status == 1;
            Moved(st, recs, act)
            == if recs == [] then Standing(status, st.note)
               else if !known && usingKey == "" then Standing(status, Some((reason, now)))
               else if known && !left then Standing(3, Some(("All keys are disabled", now)))
               else if known && status == 1 then Standing(1, st.note)
               else st
  {
    hide Perform;
    var after := Perform(recs, MarkKey(usingKey, status, reason, now));
    assert FirstIndex(recs, usingKey) < |recs| <==> exists i :: 0 <= i < |recs| && recs[i].key == usingKey;
    assert SomeEnabled(after) <==> exists i :: 0 <= i < |after| && after[i].status == 1 by {
      assert forall i :: IsEnabled(after, i) <==> 0 <= i < |after| && after[i].status == 1;
    }
  }
}
