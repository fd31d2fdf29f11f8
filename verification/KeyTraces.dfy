/**
 When a key that is disabled by hand shows the time and reason of an older failure, over runs of management actions,
 marks and edits of the key list.
 */
module KeyTraces {
  import opened Prelude
  import opened MultiKey

  ghost predicate Traced(r: Record) {
    r.time.Some? || r.reason.Some?
  }

  /** No enabled key remembers when or why it was once disabled. */
  ghost predicate NoTrace(recs: seq<Record>) {
    forall i :: 0 <= i < |recs| && recs[i].status == STATUS_ENABLED ==> !Traced(recs[i])
  }

  /**
   The operations that leave a trace: a mark that re-enables a key carrying a time or a reason, for it deletes only the
   status, and an edit that lengthens the key list over an index for which a time or a reason is still stored.
   */
  ghost predicate LeavesTrace(s: KeyState, op: Operation) {
    match op
    case Act(MarkKey(usingKey, status, _, _)) =>
      status == STATUS_ENABLED && var i := FirstIndex(s.recs, usingKey); i < |s.recs| && Traced(s.recs[i])
    case EditKeys(keys) => exists i :: |s.recs| <= i < |keys| && (i in s.times || i in s.reasons)
    case _ => false
  }

  lemma {:induction false} SurvivorsLeaveNoTrace(recs: seq<Record>)
    ensures NoTrace(Survivors(recs))
  {
    if recs != [] {
      SurvivorsLeaveNoTrace(recs[..|recs| - 1]);
    }
  }

  lemma ActionKeepsNoTraceIff(s: KeyState, act: Action)
    requires NoTrace(s.recs)
    ensures NoTrace(Perform(s.recs, act)) <==> !LeavesTrace(s, Act(act))
  {
    hide Survivors, FirstIndex;
    if act.DeleteDisabledKeys? {
      SurvivorsLeaveNoTrace(s.recs);
    } else if LeavesTrace(s, Act(act)) {
      var i := FirstIndex(s.recs, act.usingKey);
      assert Perform(s.recs, act)[i].status == STATUS_ENABLED && Traced(Perform(s.recs, act)[i]);
    }
  }

  lemma EditKeepsNoTraceIff(s: KeyState, keys: seq<string>)
    requires NoTrace(s.recs)
    ensures NoTrace(Edited(s, keys).recs) <==> !LeavesTrace(s, EditKeys(keys))
  {
    hide Hidden, TimesFrom, ReasonsFrom;
    var after := Edited(s, keys).recs;
    assert forall i :: 0 <= i < |keys| && i < |s.recs| ==> after[i] == s.recs[i].(key := keys[i]);
    assert forall i :: |s.recs| <= i < |keys| ==> (Traced(after[i]) <==> i in s.times || i in s.reasons);
    assert forall i :: |s.recs| <= i < |keys| ==> after[i].status == STATUS_ENABLED;
  }

  /** Exactly these operations leave an enabled key with a trace. */
  lemma StepKeepsNoTraceIff(s: KeyState, op: Operation)
    requires NoTrace(s.recs)
    ensures NoTrace(Next(s, op).recs) <==> !LeavesTrace(s, op)
  {
    hide NoTrace, Perform, Edited, Rebuilds;
    match op
    case Act(act) => ActionKeepsNoTraceIff(s, act);
    case EditKeys(keys) => EditKeepsNoTraceIff(s, keys);
  }

  /** Disabling enabled keys by hand, one or all, shows neither a time nor a reason for any of them. */
  ghost predicate HandDisableIsPlain(recs: seq<Record>) {
    forall i :: 0 <= i < |recs| && recs[i].status == STATUS_ENABLED ==>
      !Traced(Perform(recs, DisableKey(Some(i)))[i]) && !Traced(Perform(recs, DisableAllKeys)[i])
  }

  lemma HandDisableIsPlainIff(recs: seq<Record>)
    ensures HandDisableIsPlain(recs) <==> NoTrace(recs)
  {
    forall i | 0 <= i < |recs| && recs[i].status == STATUS_ENABLED
      ensures Traced(Perform(recs, DisableKey(Some(i)))[i]) <==> Traced(recs[i])
      ensures Traced(Perform(recs, DisableAllKeys)[i]) <==> Traced(recs[i])
    {
    }
  }

  ghost predicate AlwaysPlain(s: KeyState, ops: seq<Operation>)
    decreases |ops|
  {
    HandDisableIsPlain(s.recs) && (ops != [] ==> AlwaysPlain(Next(s, ops[0]), ops[1..]))
  }

  ghost predicate LeavesTraceNowhere(s: KeyState, ops: seq<Operation>)
    decreases |ops|
  {
    ops != [] ==> !LeavesTrace(s, ops[0]) && LeavesTraceNowhere(Next(s, ops[0]), ops[1..])
  }

  /**
   Over any run of management actions, marks and key edits that starts without traces on enabled keys: disabling by hand
   is plain at every moment if and only if no operation leaves a trace.
   */
  lemma {:induction false} RunIsPlainIff(s: KeyState, ops: seq<Operation>)
    requires NoTrace(s.recs)
    ensures AlwaysPlain(s, ops) <==> LeavesTraceNowhere(s, ops)
    decreases |ops|
  {
    hide Next, NoTrace, HandDisableIsPlain, LeavesTrace;
    HandDisableIsPlainIff(s.recs);
    if ops != [] {
      var after := Next(s, ops[0]);
      StepKeepsNoTraceIff(s, ops[0]);
      HandDisableIsPlainIff(after.recs);
      if NoTrace(after.recs) {
        RunIsPlainIff(after, ops[1..]);
      }
    }
  }

  /** What is kept beside the records belongs to no key; the state of a channel is always of this form. */
  ghost predicate OnlyHidden(s: KeyState) {
    forall i :: 0 <= i < |s.recs| ==> i !in s.times && i !in s.reasons
  }

  lemma StateOnlyHides(keys: seq<string>, s: map<int, int>, t: map<int, int>, r: map<int, string>)
    ensures OnlyHidden(StateOf(keys, s, t, r))
  {
  }

  /** Shortening the key list and lengthening it again is such a case: a new key shows the trace of a removed one. */
  lemma EditBringsTraceBack(s: KeyState, fewer: seq<string>, more: seq<string>)
    requires 0 < |fewer| < |s.recs| <= |more| && Traced(s.recs[|fewer|]) && OnlyHidden(s)
    ensures var i, after := |fewer|, Next(Next(s, EditKeys(fewer)), EditKeys(more));
            && LeavesTrace(Next(s, EditKeys(fewer)), EditKeys(more))
            && after.recs[i] == Record(more[i], STATUS_ENABLED, s.recs[i].time, s.recs[i].reason)
  {
    var i, mid := |fewer|, Edited(s, fewer);
    assert i in TimesFrom(s.recs, i) <==> s.recs[i].time.Some?;
    assert i in ReasonsFrom(s.recs, i) <==> s.recs[i].reason.Some?;
    assert Lookup(mid.times, i) == s.recs[i].time && Lookup(mid.reasons, i) == s.recs[i].reason;
  }

  /** An automatic failure and recovery is such a case: disabling the key by hand then shows the old time and reason. */
  lemma StaleReasonReturns(recs: seq<Record>, i: int, reason: string, t1: int, t2: int)
    requires 0 <= i < |recs| && FirstIndex(recs, recs[i].key) == i
    ensures var key := recs[i].key;
            var failed := Perform(recs, MarkKey(key, STATUS_AUTO_DISABLED, reason, t1));
            var recovered := Perform(failed, MarkKey(key, STATUS_ENABLED, "", t2));
            && LeavesTrace(KeyState(failed, map[], map[]), Act(MarkKey(key, STATUS_ENABLED, "", t2)))
            && Perform(recovered, DisableKey(Some(i))) == recs[i := Record(key, STATUS_MANUALLY_DISABLED, Some(t1), Some(reason))]
  {
    hide Perform, FirstIndex;
    var key := recs[i].key;
    var failed := recs[i := Record(key, STATUS_AUTO_DISABLED, Some(t1), Some(reason))];
    var recovered := recs[i := Record(key, STATUS_ENABLED, Some(t1), Some(reason))];
    MarkFirst(recs, i, STATUS_AUTO_DISABLED, reason, t1);
    FirstIndexStable(recs, failed, key);
    MarkFirst(failed, i, STATUS_ENABLED, "", t2);
    assert failed[i := recovered[i]] == recovered;
    DisableAt(recovered, i);
  }

  lemma DisableAt(recs: seq<Record>, i: int)
    requires 0 <= i < |recs|
    ensures Perform(recs, DisableKey(Some(i))) == recs[i := recs[i].(status := STATUS_MANUALLY_DISABLED)]
  {
  }

  lemma FirstIndexStable(recs: seq<Record>, recs': seq<Record>, key: string)
    requires |recs| == |recs'| && forall i :: 0 <= i < |recs| ==> recs[i].key == recs'[i].key
    ensures FirstIndex(recs, key) == FirstIndex(recs', key)
  {
  }
}
