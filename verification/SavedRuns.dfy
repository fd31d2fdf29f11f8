/**
 Whole runs against the database: every action reads the channel, works on the maps in memory, saves the channel, and the
 next action starts from what reads back.
 */
module SavedRuns {
  import opened Prelude
  import opened Text
  import opened MultiKey
  import opened KeyText

  datatype Stored = Stored(text: string, statuses: map<int, int>, times: map<int, int>, reasons: map<int, string>)

  ghost function ViewOf(parse: ArrayParser, c: Stored): seq<Record> {
    Records(GetKeys(parse, c.text), c.statuses, c.times, c.reasons)
  }

  function KeysOf(recs: seq<Record>): seq<string> {
    seq(|recs|, i requires 0 <= i < |recs| => recs[i].key)
  }

  ghost predicate Deletes(recs: seq<Record>, act: Action) {
    (act.DeleteKey? || act.DeleteDisabledKeys?) && Succeeds(recs, act)
  }

  /** The maps in memory after an action, with which `MultiKey.Channel.Manage` describes the new records. */
  ghost predicate Describes(recs: seq<Record>, s: map<int, int>, t: map<int, int>, r: map<int, string>) {
    Below(s, |recs|) && Records(KeysOf(recs), s, t, r) == recs
  }

  /** Only a deletion writes a new text; every save cuts the statuses to the size of the text. */
  ghost function Save(parse: ArrayParser, c: Stored, act: Action, s: map<int, int>, t: map<int, int>, r: map<int, string>): Stored {
    var recs := ViewOf(parse, c);
    var text := if Deletes(recs, act) then Saved(c.text, KeysOf(Perform(recs, act))) else c.text;
    Stored(text, CutTo(s, SizeOf(parse, text)), t, r)
  }

  ghost predicate SavedStep(parse: ArrayParser, c: Stored, act: Action, c': Stored) {
    exists s, t, r :: Describes(Perform(ViewOf(parse, c), act), s, t, r) && c' == Save(parse, c, act, s, t, r)
  }

  /** Keys that survive being saved as text. */
  ghost predicate Saveable(parse: ArrayParser, keys: seq<string>) {
    OnePerLine(keys) && !IsArray(parse, JoinKeys(keys))
  }

  // ----- One action

  lemma DeletionShortens(recs: seq<Record>, act: Action)
    requires Deletes(recs, act)
    ensures |Perform(recs, act)| < |recs|
  {
    DeletionSucceedsIff(recs, act);
  }

  lemma OtherActionsKeepKeys(parse: ArrayParser, c: Stored, act: Action)
    requires !Deletes(ViewOf(parse, c), act)
    ensures KeysOf(Perform(ViewOf(parse, c), act)) == GetKeys(parse, c.text)
  {
    hide Perform, GetKeys;
    UpdatesKeepKeys(ViewOf(parse, c), act);
  }

  lemma SizeCoversKeys(parse: ArrayParser, text: string)
    ensures SizeOf(parse, text) >= |GetKeys(parse, text)|
  {
    hide Lines, IsArray;
  }

  /** What is saved reads back as the action's result, exactly if a deletion leaves saveable keys. */
  lemma SaveRefinesIff(parse: ArrayParser, c: Stored, act: Action, s: map<int, int>, t: map<int, int>, r: map<int, string>)
    requires Bracketed(parse) && Describes(Perform(ViewOf(parse, c), act), s, t, r)
    ensures ViewOf(parse, Save(parse, c, act, s, t, r)) == Perform(ViewOf(parse, c), act)
       <==> (Deletes(ViewOf(parse, c), act) ==> Saveable(parse, KeysOf(Perform(ViewOf(parse, c), act))))
  {
    hide Perform, GetKeys, Deletes, Saved, OnePerLine, IsArray, JoinKeys, Bracketed, SizeOf;
    var recs := Perform(ViewOf(parse, c), act);
    var keys := KeysOf(recs);
    if Deletes(ViewOf(parse, c), act) {
      DeletionShortens(ViewOf(parse, c), act);
      DeletionIsSavedIff(parse, c.text, keys, s, t, r);
    } else {
      OtherActionsKeepKeys(parse, c, act);
      SizeCoversKeys(parse, c.text);
      assert CutTo(s, SizeOf(parse, c.text)) == s;
    }
  }

  lemma StepRefinesIff(parse: ArrayParser, c: Stored, act: Action, c': Stored)
    requires Bracketed(parse) && SavedStep(parse, c, act, c')
    ensures ViewOf(parse, c') == Perform(ViewOf(parse, c), act)
       <==> (Deletes(ViewOf(parse, c), act) ==> Saveable(parse, KeysOf(Perform(ViewOf(parse, c), act))))
  {
    hide Perform, Describes, Save, ViewOf, Deletes, Saveable, Bracketed;
    var s, t, r :| Describes(Perform(ViewOf(parse, c), act), s, t, r) && c' == Save(parse, c, act, s, t, r);
    SaveRefinesIff(parse, c, act, s, t, r);
  }

  // ----- Runs

  /** The stored channel before, between and after the actions. */
  ghost predicate SavedRun(parse: ArrayParser, cs: seq<Stored>, acts: seq<Action>)
    decreases |acts|
  {
    && |cs| == |acts| + 1
    && (acts != [] ==> SavedStep(parse, cs[0], acts[0], cs[1]) && SavedRun(parse, cs[1..], acts[1..]))
  }

  /** At every moment the stored channel reads as the list of records would be. */
  ghost predicate Refines(parse: ArrayParser, cs: seq<Stored>, acts: seq<Action>, recs: seq<Record>)
    requires |cs| == |acts| + 1
    decreases |acts|
  {
    && ViewOf(parse, cs[0]) == recs
    && (acts != [] ==> Refines(parse, cs[1..], acts[1..], Perform(recs, acts[0])))
  }

  /** Every deletion of the run on records leaves saveable keys. */
  ghost predicate AllSaveable(parse: ArrayParser, recs: seq<Record>, acts: seq<Action>)
    decreases |acts|
  {
    acts != [] ==>
      && (Deletes(recs, acts[0]) ==> Saveable(parse, KeysOf(Perform(recs, acts[0]))))
      && AllSaveable(parse, Perform(recs, acts[0]), acts[1..])
  }

  /**
   Over any run in which each action is saved and read back: the stored channel refines the list of records throughout
   if and only if every deletion leaves keys that stand one per line and do not join to an array.  The condition speaks
   only of the records at the start and the actions.
   */
  lemma {:induction false} RunRefinesIff(parse: ArrayParser, cs: seq<Stored>, acts: seq<Action>)
    requires Bracketed(parse) && SavedRun(parse, cs, acts)
    ensures Refines(parse, cs, acts, ViewOf(parse, cs[0])) <==> AllSaveable(parse, ViewOf(parse, cs[0]), acts)
    decreases |acts|
  {
    hide Perform, ViewOf, Deletes, Saveable, SavedStep, Bracketed;
    if acts != [] {
      StepRefinesIff(parse, cs[0], acts[0], cs[1]);
      if ViewOf(parse, cs[1]) == Perform(ViewOf(parse, cs[0]), acts[0]) {
        RunRefinesIff(parse, cs[1..], acts[1..]);
      }
    }
  }

  lemma {:induction false} RefinedRunEnds(parse: ArrayParser, cs: seq<Stored>, acts: seq<Action>, recs: seq<Record>)
    requires |cs| == |acts| + 1 && Refines(parse, cs, acts, recs)
    ensures ViewOf(parse, cs[|acts|]) == Run(recs, acts)
    decreases |acts|
  {
    hide Perform, ViewOf;
    if acts != [] {
      RefinedRunEnds(parse, cs[1..], acts[1..], Perform(recs, acts[0]));
    }
  }
}
