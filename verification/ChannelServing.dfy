/**
 When an enabled channel can be left without an enabled key.  The relay selects among enabled channels and then asks
 for a key, so such a channel is offered and cannot serve.
 */
module ChannelServing {
  import opened Prelude
  import opened MultiKey

  datatype State = State(recs: seq<Record>, standing: Standing)

  ghost function Step(s: State, act: Action): State {
    State(Perform(s.recs, act), Moved(s.standing, s.recs, act))
  }

  /** An enabled channel has an enabled key. */
  ghost predicate Serves(s: State) {
    s.standing.status == STATUS_ENABLED ==> SomeEnabled(s.recs)
  }

  ghost predicate OnlyEnabled(recs: seq<Record>, i: int) {
    forall j :: IsEnabled(recs, j) ==> j == i
  }

  /**
   The actions that strand a channel: taking away the last enabled key by hand, for the channel's status does not
   follow, and an enabling mark that is meant for the channel itself while no key is enabled.
   */
  ghost predicate Strands(s: State, act: Action) {
    match act
    case DisableKey(Some(i)) => s.standing.status == STATUS_ENABLED && 0 <= i < |s.recs| && OnlyEnabled(s.recs, i)
    case DeleteKey(Some(i)) =>
      s.standing.status == STATUS_ENABLED && 0 <= i < |s.recs| && |s.recs| > 1 && OnlyEnabled(s.recs, i)
    case DisableAllKeys => s.standing.status == STATUS_ENABLED
    case MarkKey(usingKey, status, _, _) =>
      && status == STATUS_ENABLED && !SomeEnabled(s.recs)
      && (s.recs == [] || (usingKey == "" && FirstIndex(s.recs, "") == |s.recs|))
    case _ => false
  }

  lemma {:induction false} EnabledSurvives(recs: seq<Record>, i: int)
    requires IsEnabled(recs, i)
    ensures SomeEnabled(Survivors(recs))
  {
    var front := recs[..|recs| - 1];
    if i < |front| {
      EnabledSurvives(front, i);
      var j :| IsEnabled(Survivors(front), j);
      assert IsEnabled(Survivors(recs), j);
    } else {
      assert IsEnabled(Survivors(recs), |Survivors(recs)| - 1);
    }
  }

  lemma EnabledAfterDisable(recs: seq<Record>, i: int)
    requires 0 <= i < |recs|
    ensures SomeEnabled(Perform(recs, DisableKey(Some(i)))) <==> exists j :: IsEnabled(recs, j) && j != i
  {
    var after := Perform(recs, DisableKey(Some(i)));
    assert forall j :: IsEnabled(after, j) <==> IsEnabled(recs, j) && j != i;
  }

  lemma EnabledAfterDelete(recs: seq<Record>, i: int)
    requires 0 <= i < |recs| && |recs| > 1
    ensures SomeEnabled(Perform(recs, DeleteKey(Some(i)))) <==> exists j :: IsEnabled(recs, j) && j != i
  {
    var after := Perform(recs, DeleteKey(Some(i)));
    forall j | IsEnabled(recs, j) && j != i ensures SomeEnabled(after) {
      assert IsEnabled(after, if j < i then j else j - 1);
    }
    forall j | IsEnabled(after, j) ensures exists j' :: IsEnabled(recs, j') && j' != i {
      assert IsEnabled(recs, if j < i then j else j + 1);
    }
  }

  lemma EnabledAfterEnabling(recs: seq<Record>, act: Action)
    requires act.EnableKey? || act.EnableAllKeys? || act.DeleteDisabledKeys?
    requires SomeEnabled(recs)
    ensures SomeEnabled(Perform(recs, act))
  {
    var i :| IsEnabled(recs, i);
    if act.DeleteDisabledKeys? {
      EnabledSurvives(recs, i);
    } else {
      assert IsEnabled(Perform(recs, act), i);
    }
  }

  lemma NoneEnabledAfterDisableAll(recs: seq<Record>)
    ensures !SomeEnabled(Perform(recs, DisableAllKeys))
  {
  }

  /** A mark strands a channel only if it is meant for the channel itself. */
  lemma MarkServesIff(s: State, act: Action)
    requires Serves(s) && act.MarkKey?
    ensures Serves(Step(s, act)) <==> !Strands(s, act)
  {
    if s.recs == [] || FirstIndex(s.recs, act.usingKey) == |s.recs| {
      assert Perform(s.recs, act) == s.recs;
    }
  }

  /** Exactly the stranding actions leave an enabled channel without an enabled key. */
  lemma StepServesIff(s: State, act: Action)
    requires Serves(s)
    ensures Serves(Step(s, act)) <==> !Strands(s, act)
  {
    hide Perform, SomeEnabled;
    if s.standing.status == STATUS_ENABLED {
      EnabledIndex(s.recs);
    }
    match act
    case DisableKey(Some(i)) =>
      if 0 <= i < |s.recs| {
        EnabledAfterDisable(s.recs, i);
      } else {
        RefusedChangesNothing(s.recs, act);
      }
    case DeleteKey(Some(i)) =>
      if 0 <= i < |s.recs| && |s.recs| > 1 {
        EnabledAfterDelete(s.recs, i);
      } else {
        RefusedChangesNothing(s.recs, act);
      }
    case DisableAllKeys => NoneEnabledAfterDisableAll(s.recs);
    case MarkKey(_, _, _, _) => MarkServesIff(s, act);
    case DisableKey(None) => RefusedChangesNothing(s.recs, act);
    case DeleteKey(None) => RefusedChangesNothing(s.recs, act);
    case _ =>
      if SomeEnabled(s.recs) {
        EnabledAfterEnabling(s.recs, act);
      }
  }

  lemma EnabledIndex(recs: seq<Record>)
    requires SomeEnabled(recs)
    ensures exists j :: IsEnabled(recs, j)
  {
  }

  lemma RefusedChangesNothing(recs: seq<Record>, act: Action)
    requires (act.DisableKey? || act.DeleteKey?) && !Succeeds(recs, act)
    ensures Perform(recs, act) == recs
  {
  }

  ghost predicate AlwaysServes(s: State, acts: seq<Action>)
    decreases |acts|
  {
    Serves(s) && (acts != [] ==> AlwaysServes(Step(s, acts[0]), acts[1..]))
  }

  ghost predicate StrandsNowhere(s: State, acts: seq<Action>)
    decreases |acts|
  {
    acts != [] ==> !Strands(s, acts[0]) && StrandsNowhere(Step(s, acts[0]), acts[1..])
  }

  /** Over any run: the channel has an enabled key whenever it is enabled, if and only if no action strands it. */
  lemma {:induction false} RunServesIff(s: State, acts: seq<Action>)
    requires Serves(s)
    ensures AlwaysServes(s, acts) <==> StrandsNowhere(s, acts)
    decreases |acts|
  {
    hide Serves, Strands, Step;
    if acts != [] {
      StepServesIff(s, acts[0]);
      if Serves(Step(s, acts[0])) {
        RunServesIff(Step(s, acts[0]), acts[1..]);
      }
    }
  }

  /** Disabling the only key by hand is such an action. */
  lemma DisabledByHandStrands(key: string)
    ensures var s := State([Record(key, STATUS_ENABLED, None, None)], Standing(STATUS_ENABLED, None));
            Serves(s) && !Serves(Step(s, DisableKey(Some(0))))
  {
    var s := State([Record(key, STATUS_ENABLED, None, None)], Standing(STATUS_ENABLED, None));
    assert IsEnabled(s.recs, 0);
    StepServesIff(s, DisableKey(Some(0)));
  }
}
