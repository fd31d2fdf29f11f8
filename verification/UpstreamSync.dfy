/**
 Reconciling a channel's model list with what its upstream offers: detect the difference, stage it, apply a
 selection of it.  Whether a regular expression matches is a parameter.
 */
module UpstreamSync {
  import opened Prelude
  import opened Text
  import opened OrderedSets
  import opened ModelNames

  const COMMA := ','
  const REGEX_PREFIX := "regex:"

  /** `regexp.MatchString` without an error and with a match; pattern first. */
  type Matcher = (string, string) -> bool

  // ----- The comma-separated models column

  /** `strings.Trim(s, ",")`. */
  function TrimCommas(s: string): (r: string)
    ensures s != "" && s[0] != COMMA && s[|s| - 1] != COMMA ==> r == s
  {
    if s != "" && s[0] == COMMA then TrimCommas(s[1..])
    else if s != "" && s[|s| - 1] == COMMA then TrimCommas(s[..|s| - 1])
    else s
  }

  /** `channel.GetModels`. */
  function GetModels(models: string): seq<string> {
    if models == "" then [] else Split(TrimCommas(models), COMMA)
  }

  function JoinNames(names: seq<string>): string {
    if names == [] then "" else Join(names, COMMA)
  }

  ghost predicate CommaFree(names: set<string>) {
    forall n :: n in names ==> COMMA !in n
  }

  lemma TrimKeepsCharacters(s: string, c: char)
    ensures c !in s ==> c !in TrimSpace(s)
  {
    var l := TrimLeft(s);
    assert forall x :: x in l ==> x in s;
    assert forall x :: x in TrimRight(l) ==> x in l;
  }

  lemma {:induction false} SplitBlankFirst(s: string)
    ensures Split([COMMA] + s, COMMA) == [""] + Split(s, COMMA)
  {
    assert ([COMMA] + s)[1..] == s;
  }

  lemma {:induction false} SplitBlankLast(s: string)
    ensures Split(s + [COMMA], COMMA) == Split(s, COMMA) + [""]
  {
    var t := s + [COMMA];
    if s == "" {
      assert t[1..] == "";
    } else {
      SplitBlankLast(s[1..]);
      assert t[1..] == s[1..] + [COMMA];
    }
  }

  lemma NamesWithBlank(xs: seq<string>)
    ensures NameSet([""] + xs) == NameSet(xs) && NameSet(xs + [""]) == NameSet(xs)
  {
    assert TrimSpace("") == "";
  }

  lemma {:induction false} TrimmedCommasHoldNoNames(s: string)
    ensures NameSet(Split(TrimCommas(s), COMMA)) == NameSet(Split(s, COMMA))
    decreases |s|
  {
    if s != "" && s[0] == COMMA {
      assert [COMMA] + s[1..] == s;
      SplitBlankFirst(s[1..]);
      NamesWithBlank(Split(s[1..], COMMA));
      TrimmedCommasHoldNoNames(s[1..]);
    } else if s != "" && s[|s| - 1] == COMMA {
      var front := s[..|s| - 1];
      assert front + [COMMA] == s;
      SplitBlankLast(front);
      NamesWithBlank(Split(front, COMMA));
      TrimmedCommasHoldNoNames(front);
    }
  }

  /** The names of a models column are the trimmed non-blank parts between its commas. */
  lemma ColumnNames(models: string)
    ensures NameSet(GetModels(models)) == NameSet(Split(models, ','))
  {
    TrimmedCommasHoldNoNames(models);
    assert models == "" ==> Split(models, ',') == [""];
    NamesWithBlank([]);
    assert [""] + [] == [""];
  }

  /** The column cannot hold a name with a comma: reading splits it. */
  lemma LocalNamesHoldNoComma(models: string)
    ensures CommaFree(NameSet(GetModels(models)))
  {
    forall m | m in GetModels(models) ensures COMMA !in TrimSpace(m) {
      TrimKeepsCharacters(m, COMMA);
    }
  }

  lemma {:induction false} JoinEnds(names: seq<string>)
    requires names != [] && forall n :: n in names ==> n != "" && COMMA !in n
    ensures var s := Join(names, COMMA); s != "" && s[0] != COMMA && s[|s| - 1] != COMMA
  {
    assert names[0] in names;
    if |names| > 1 {
      assert forall n :: n in names[1..] ==> n in names;
      JoinEnds(names[1..]);
    }
  }

  /** Writing clean comma-free names and reading the column back gives the same list. */
  lemma ColumnRoundTrip(names: seq<string>)
    requires Clean(names) && CommaFree(Set(names))
    ensures Normalize(GetModels(JoinNames(names))) == names
  {
    NormalizeClean(names);
    if names != [] {
      forall n | n in names ensures n != "" && COMMA !in n {
        assert n in Set(names);
      }
      JoinEnds(names);
      SplitJoin(names, COMMA);
    }
  }

  // ----- Detection

  predicate RuleIgnores(m: Matcher, rule: string, name: string) {
    if REGEX_PREFIX <= rule then m(TrimSpace(rule[|REGEX_PREFIX|..]), name) else rule == name
  }

  predicate Ignored(m: Matcher, rules: set<string>, name: string) {
    exists rule :: rule in rules && RuleIgnores(m, rule, name)
  }

  function IgnoredNames(m: Matcher, rules: set<string>, names: set<string>): set<string> {
    set n | n in names && Ignored(m, rules, n)
  }

  /** Upstream names that are neither local, nor the target of a redirect, nor ignored. */
  function PendingAdd(m: Matcher, local: seq<string>, upstream: seq<string>, ignored: seq<string>, mapping: map<string, string>)
    : seq<string>
  {
    var names := Normalize(upstream);
    Normalize(Without(names, Set(Normalize(local)) + mapping.Values + IgnoredNames(m, Set(Normalize(ignored)), Set(names))))
  }

  /** Local names that the upstream does not offer and that are not the source of a redirect. */
  function PendingRemove(local: seq<string>, upstream: seq<string>, mapping: map<string, string>): seq<string> {
    Normalize(Without(Normalize(local), Set(Normalize(upstream)) + mapping.Keys))
  }

  lemma PendingAddFacts(m: Matcher, local: seq<string>, upstream: seq<string>, ignored: seq<string>, mapping: map<string, string>)
    ensures var r := PendingAdd(m, local, upstream, ignored, mapping);
            && Clean(r) && InOrderOf(r, Normalize(upstream))
            && Set(r) == NameSet(upstream) - NameSet(local) - mapping.Values - IgnoredNames(m, NameSet(ignored), NameSet(upstream))
  {
    var names := Normalize(upstream);
    NormalizeFacts(upstream);
    NormalizeFacts(local);
    NormalizeFacts(ignored);
    var covered := Set(Normalize(local)) + mapping.Values + IgnoredNames(m, Set(Normalize(ignored)), Set(names));
    WithoutFacts(names, covered);
    WithoutKeepsOrder(names, covered);
    NormalizeClean(Without(names, covered));
  }

  lemma PendingRemoveFacts(local: seq<string>, upstream: seq<string>, mapping: map<string, string>)
    ensures var r := PendingRemove(local, upstream, mapping);
            Clean(r) && InOrderOf(r, Normalize(local)) && Set(r) == NameSet(local) - NameSet(upstream) - mapping.Keys
  {
    WithoutKeepsOrder(Normalize(local), Set(Normalize(upstream)) + mapping.Keys);
    NormalizeFacts(upstream);
    NormalizeFacts(local);
    WithoutFacts(Normalize(local), Set(Normalize(upstream)) + mapping.Keys);
    NormalizeClean(Without(Normalize(local), Set(Normalize(upstream)) + mapping.Keys));
  }

  /** `collectPendingUpstreamModelChangesFromModels`, with its lookup sets filled by loops. */
  method CollectPending(m: Matcher, local: seq<string>, upstream: seq<string>, ignored: seq<string>, mapping: map<string, string>)
    returns (add: seq<string>, remove: seq<string>)
    ensures add == PendingAdd(m, local, upstream, ignored, mapping)
    ensures remove == PendingRemove(local, upstream, mapping)
  {
    var localSet := Collect(Normalize(local));
    var upstreamSet := Collect(Normalize(upstream));
    var rules := Normalize(ignored);

    var sources, targets := RedirectSets(mapping);
    var hidden := Hidden(m, rules, Normalize(upstream));
    add := Normalize(Without(Normalize(upstream), localSet + targets + hidden));
    remove := Normalize(Without(Normalize(local), upstreamSet + sources));
  }

  /** The redirect sources and targets, gathered entry by entry. */
  method RedirectSets(mapping: map<string, string>) returns (sources: set<string>, targets: set<string>)
    ensures sources == mapping.Keys && targets == mapping.Values
  {
    sources, targets := {}, {};
    var todo := mapping.Keys;
    while todo != {}
      invariant todo <= mapping.Keys && sources == mapping.Keys - todo
      invariant targets == set k | k in mapping.Keys - todo :: mapping[k]
      decreases |todo|
    {
      var source :| source in todo;
      sources, targets := sources + {source}, targets + {mapping[source]};
      todo := todo - {source};
    }
    assert targets == mapping.Values;
  }

  /** The names for which some rule matches. */
  method Hidden(m: Matcher, rules: seq<string>, names: seq<string>) returns (hidden: set<string>)
    ensures hidden == IgnoredNames(m, Set(rules), Set(names))
  {
    hidden := {};
    for i := 0 to |names|
      invariant hidden == IgnoredNames(m, Set(rules), Set(names[..i]))
    {
      SetAppend(names[..i], names[i]);
      assert names[..i + 1] == names[..i] + [names[i]];
      if Ignored(m, Set(rules), names[i]) {
        hidden := hidden + {names[i]};
      }
    }
    assert names[..|names|] == names;
  }

  // ----- The channel

  /** The fields of a channel and of its settings that reconciliation reads and writes. */
  datatype Channel = Channel(
    models: string,
    mapping: map<string, string>,
    ignored: seq<string>,
    detected: seq<string>,
    removed: seq<string>,
    lastCheckTime: int,
    autoSync: bool)

  function Local(c: Channel): seq<string> {
    Normalize(GetModels(c.models))
  }

  function Adds(m: Matcher, c: Channel, upstream: seq<string>): seq<string> {
    PendingAdd(m, GetModels(c.models), upstream, c.ignored, c.mapping)
  }

  function Removes(c: Channel, upstream: seq<string>): seq<string> {
    PendingRemove(GetModels(c.models), upstream, c.mapping)
  }

  /** A completed detection: additions are adopted at once when allowed and wanted, and staged otherwise. */
  function Detected(m: Matcher, c: Channel, upstream: seq<string>, now: int, allowAutoApply: bool): Channel {
    var adds := Adds(m, c, upstream);
    var c' := c.(removed := Removes(c, upstream), lastCheckTime := now);
    if allowAutoApply && c.autoSync && adds != [] then
      var merged := Merged(Local(c), adds);
      c'.(models := if |merged| > |Local(c)| then JoinNames(merged) else c.models, detected := [])
    else
      c'.(detected := adds)
  }

  lemma MergedDisjoint(xs: seq<string>, ys: seq<string>)
    requires Clean(xs) && Clean(ys) && Set(xs) !! Set(ys)
    ensures Merged(xs, ys) == xs + ys
  {
    NormalizeClean(xs);
    NormalizeClean(ys);
    WithinAll(ys, Set(ys) - Set(xs));
  }

  datatype Applied = Applied(
    added: seq<string>,
    removed: seq<string>,
    remaining: seq<string>,
    remainingRemove: seq<string>,
    modelsChanged: bool)

  /** `applyChannelUpstreamModelUpdates`: the client's lists are cut down to what has been staged. */
  function Apply(c: Channel, add: seq<string>, ignore: seq<string>, remove: seq<string>, now: int): (Channel, Applied) {
    var pendingAdd, pendingRemove := Normalize(c.detected), Normalize(c.removed);
    var adds := Intersect(add, pendingAdd);
    var ignores := Intersect(ignore, pendingAdd);
    var removes := Subtract(Intersect(remove, pendingRemove), adds);
    var next := ApplySelected(Local(c), adds, removes);
    var changed := Local(c) != next;
    var rules := Merged(c.ignored, ignores);
    var remaining := Subtract(pendingAdd, adds + ignores);
    var remainingRemove := Subtract(pendingRemove, removes);
    (c.(models := if changed then JoinNames(next) else c.models,
        ignored := if |adds| > 0 then Subtract(rules, adds) else rules,
        detected := remaining,
        removed := remainingRemove,
        lastCheckTime := now),
     Applied(adds, removes, remaining, remainingRemove, changed))
  }

  /** The record as the program mutates it. */
  class ChannelRecord {
    var models: string
    var mapping: map<string, string>
    var ignored: seq<string>
    var detected: seq<string>
    var removed: seq<string>
    var lastCheckTime: int
    var autoSync: bool

    function View(): Channel
      reads this
    {
      Channel(models, mapping, ignored, detected, removed, lastCheckTime, autoSync)
    }

    constructor (c: Channel)
      ensures View() == c
    {
      models, mapping, ignored, detected := c.models, c.mapping, c.ignored, c.detected;
      removed, lastCheckTime, autoSync := c.removed, c.lastCheckTime, c.autoSync;
    }

    /**
     `checkAndPersistChannelUpstreamModelUpdates`: skipped while the last check is recent, and a failed fetch
     records only the time of the attempt.
     */
    method Check(m: Matcher, upstream: Option<seq<string>>, now: int, force: bool, minInterval: int, allowAutoApply: bool)
      returns (modelsChanged: bool, autoAdded: int)
      modifies this
      ensures var c := old(View());
              var skipped := !force && c.lastCheckTime > 0 && now - c.lastCheckTime < minInterval;
              && View() == (if skipped then c
                            else if upstream.None? then c.(lastCheckTime := now)
                            else Detected(m, c, upstream.value, now, allowAutoApply))
              && autoAdded == (if !skipped && upstream.Some? && allowAutoApply && c.autoSync then |Adds(m, c, upstream.value)| else 0)
              && (modelsChanged <==> autoAdded > 0)
    {
      hide Normalize, Merged, PendingAdd, PendingRemove, GetModels, JoinNames, Clean, Set;
      modelsChanged, autoAdded := false, 0;
      if !force && lastCheckTime > 0 && now - lastCheckTime < minInterval {
        return;
      }
      if upstream.None? {
        lastCheckTime := now;
        return;
      }
      var add, remove := CollectPending(m, GetModels(models), upstream.value, ignored, mapping);
      lastCheckTime := now;
      if allowAutoApply && autoSync && |add| > 0 {
        var origin := Normalize(GetModels(models));
        var merged := MergeModelNames(origin, add);
        MergedDisjoint(origin, add) by {
          NormalizeFacts(GetModels(models));
          PendingAddFacts(m, GetModels(models), upstream.value, ignored, mapping);
        }
        if |merged| > |origin| {
          models := JoinNames(merged);
          autoAdded := |merged| - |origin|;
          modelsChanged := true;
        }
        detected := [];
      } else {
        detected := add;
      }
      removed := remove;
    }

    method ApplyUpdates(add: seq<string>, ignore: seq<string>, remove: seq<string>, now: int) returns (r: Applied)
      modifies this
      ensures View() == Apply(old(View()), add, ignore, remove, now).0
      ensures r == Apply(old(View()), add, ignore, remove, now).1
    {
      hide Normalize, Subtract, Intersect, Merged, ApplySelected, GetModels, JoinNames;
      ghost var (after, result) := Apply(View(), add, ignore, remove, now);
      var pendingAdd, pendingRemove := Normalize(detected), Normalize(removed);
      var adds := Intersect(add, pendingAdd);
      var ignores := Intersect(ignore, pendingAdd);
      var removes := Subtract(Intersect(remove, pendingRemove), adds);
      var origin := Normalize(GetModels(models));
      var next := ApplySelected(origin, adds, removes);
      var modelsChanged := origin != next;
      if modelsChanged {
        models := JoinNames(next);
      }
      assert models == after.models && modelsChanged == result.modelsChanged;
      ignored := MergeModelNames(ignored, ignores);
      if |adds| > 0 {
        ignored := Subtract(ignored, adds);
      }
      assert ignored == after.ignored;
      var remaining := Subtract(pendingAdd, adds + ignores);
      var remainingRemove := Subtract(pendingRemove, removes);
      detected, removed := remaining, remainingRemove;
      lastCheckTime := now;
      r := Applied(adds, removes, remaining, remainingRemove, modelsChanged);
    }
  }
}
