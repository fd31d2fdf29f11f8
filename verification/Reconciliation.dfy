/** What detection and selective application of upstream changes achieve together. */
module Reconciliation {
  import opened Text
  import opened OrderedSets
  import opened ModelNames
  import opened UpstreamSync

  // ----- Selective application

  /** The effect of one application, as sets. */
  lemma ApplyFacts(c: Channel, add: seq<string>, ignore: seq<string>, remove: seq<string>, now: int)
    ensures var (c', r) := Apply(c, add, ignore, remove, now);
            var ignores := NameSet(ignore) * NameSet(c.detected);
            && Clean(r.added) && Set(r.added) == NameSet(add) * NameSet(c.detected)
            && Clean(r.removed) && Set(r.removed) == NameSet(remove) * NameSet(c.removed) - Set(r.added)
            && Clean(r.remaining) && Set(r.remaining) == NameSet(c.detected) - Set(r.added) - ignores
            && Clean(r.remainingRemove) && Set(r.remainingRemove) == NameSet(c.removed) - Set(r.removed)
            && NameSet(c'.ignored) == NameSet(c.ignored) + ignores - Set(r.added)
            && c'.detected == r.remaining && c'.removed == r.remainingRemove && c'.mapping == c.mapping
  {
    hide Normalize, Intersect, Subtract, Merged, ApplySelected, JoinNames, GetModels;
    var pendingAdd, pendingRemove := Normalize(c.detected), Normalize(c.removed);
    NormalizeFacts(c.detected);
    NormalizeFacts(c.removed);
    NormalizeClean(pendingAdd);
    NormalizeClean(pendingRemove);
    var adds, ignores := Intersect(add, pendingAdd), Intersect(ignore, pendingAdd);
    IntersectFacts(add, pendingAdd);
    IntersectFacts(ignore, pendingAdd);
    NormalizeClean(adds);
    NormalizeClean(ignores);
    IntersectFacts(remove, pendingRemove);
    NormalizeClean(Intersect(remove, pendingRemove));
    var removes := Subtract(Intersect(remove, pendingRemove), adds);
    SubtractFacts(Intersect(remove, pendingRemove), adds);
    NormalizeClean(removes);
    NameSetConcat(adds, ignores);
    SubtractFacts(pendingAdd, adds + ignores);
    SubtractFacts(pendingRemove, removes);
    MergedFacts(c.ignored, ignores);
    NormalizeClean(Merged(c.ignored, ignores));
    SubtractFacts(Merged(c.ignored, ignores), adds);
    NormalizeClean(Subtract(Merged(c.ignored, ignores), adds));
    assert adds == [] ==> Set(adds) == {};
  }

  lemma NameSetConcat(xs: seq<string>, ys: seq<string>)
    ensures NameSet(xs + ys) == NameSet(xs) + NameSet(ys)
  {
  }

  /** The list the application computes for the models column. */
  function NextModels(c: Channel, r: Applied): seq<string> {
    ApplySelected(Local(c), r.added, r.removed)
  }

  lemma NextFacts(c: Channel, add: seq<string>, ignore: seq<string>, remove: seq<string>, now: int)
    ensures var (c', r) := Apply(c, add, ignore, remove, now);
            var next := NextModels(c, r);
            && Clean(next) && Set(next) == Set(Local(c)) - Set(r.removed) + Set(r.added)
            && next == Within(Local(c), Set(next)) + Without(r.added, Set(Local(c)))
            && (r.modelsChanged <==> next != Local(c))
            && c'.models == if r.modelsChanged then JoinNames(next) else c.models
  {
    ApplyFacts(c, add, ignore, remove, now);
    var (c', r) := Apply(c, add, ignore, remove, now);
    NormalizeFacts(GetModels(c.models));
    NextFactsOf(c, r);
  }

  lemma NextFactsOf(c: Channel, r: Applied)
    requires Clean(Local(c)) && Clean(r.added) && Clean(r.removed) && Set(r.added) !! Set(r.removed)
    ensures var next := NextModels(c, r);
            && Clean(next) && Set(next) == Set(Local(c)) - Set(r.removed) + Set(r.added)
            && next == Within(Local(c), Set(next)) + Without(r.added, Set(Local(c)))
  {
    hide Normalize, ApplySelected, GetModels, Within, Without;
    NormalizeClean(Local(c));
    NormalizeClean(r.added);
    NormalizeClean(r.removed);
    ApplySelectedFacts(Local(c), r.added, r.removed);
    ApplySelectedOrder(Local(c), r.added, r.removed);
  }

  /** The column then reads as the computed list exactly if no adopted name holds a comma. */
  lemma ColumnHoldsNextIff(c: Channel, add: seq<string>, ignore: seq<string>, remove: seq<string>, now: int)
    ensures var (c', r) := Apply(c, add, ignore, remove, now);
            && (Local(c') == NextModels(c, r) <==> CommaFree(Set(r.added)))
            && (Set(r.added) <= Set(Local(c')) <==> CommaFree(Set(r.added)))
  {
    var (c', r) := Apply(c, add, ignore, remove, now);
    NextFacts(c, add, ignore, remove, now);
    ColumnHolds(c, c', r);
  }

  lemma ColumnHolds(c: Channel, c': Channel, r: Applied)
    requires var next := NextModels(c, r);
             && Clean(next) && Set(next) == Set(Local(c)) - Set(r.removed) + Set(r.added)
             && c'.models == (if next != Local(c) then JoinNames(next) else c.models)
    ensures Local(c') == NextModels(c, r) <==> CommaFree(Set(r.added))
    ensures Set(r.added) <= Set(Local(c')) <==> CommaFree(Set(r.added))
  {
    hide ApplySelected, Normalize, GetModels, JoinNames;
    var next := NextModels(c, r);
    LocalNamesHoldNoComma(c.models);
    LocalNamesHoldNoComma(c'.models);
    NormalizeFacts(GetModels(c.models));
    NormalizeFacts(GetModels(c'.models));
    if CommaFree(Set(r.added)) && next != Local(c) {
      ColumnRoundTrip(next);
    }
  }

  /**
   Selective application is confined, whatever the client sends: models are gained only from the staged
   additions it selected, lost only from the staged removals it selected, survivors keep their order and come
   first, an addition beats removal and ignoring, and the staged additions split into added, ignored and remaining.
   */
  lemma ApplicationIsConfined(c: Channel, add: seq<string>, ignore: seq<string>, remove: seq<string>, now: int)
    requires CommaFree(NameSet(add) * NameSet(c.detected))
    ensures var (c', r) := Apply(c, add, ignore, remove, now);
            var before, after := Set(Local(c)), Set(Local(c'));
            var ignores := NameSet(ignore) * NameSet(c.detected);
            && after - before <= NameSet(c.detected) * NameSet(add) == Set(r.added)
            && before - after <= NameSet(c.removed) * NameSet(remove) - Set(r.added)
            && NoDup(Local(c')) && Local(c') == Within(Local(c), after) + Without(r.added, before)
            && Set(r.added) <= after && Set(r.added) !! NameSet(c'.ignored)
            && NameSet(c.detected) == Set(r.added) + ignores + Set(r.remaining)
            && Set(r.remaining) !! Set(r.added) + ignores
  {
    hide Apply, NextModels, Local, NameSet, Set, Within, Without;
    ApplyFacts(c, add, ignore, remove, now);
    NextFacts(c, add, ignore, remove, now);
    ColumnHoldsNextIff(c, add, ignore, remove, now);
  }

  // ----- Convergence

  /** Detect and stage, then apply everything staged. */
  function StageAndApplyAll(m: Matcher, c: Channel, upstream: seq<string>, t1: int, t2: int): Channel {
    var staged := Detected(m, c, upstream, t1, false);
    Apply(staged, Normalize(staged.detected), [], Normalize(staged.removed), t2).0
  }

  ghost predicate NothingPending(m: Matcher, c: Channel, upstream: seq<string>) {
    Adds(m, c, upstream) == [] && Removes(c, upstream) == []
  }

  /** Upstream names that are neither local nor a redirect target. */
  ghost function Uncovered(c: Channel, upstream: seq<string>): set<string> {
    NameSet(upstream) - Set(Local(c)) - c.mapping.Values
  }

  /**
   Each ignored name keeps one of its rules: adopting a name also deletes the equal rule, and a name of the form
   `regex:...` can equal a pattern rule.
   */
  ghost predicate RulesSurvive(m: Matcher, c: Channel, upstream: seq<string>) {
    forall n :: n in Uncovered(c, upstream) && Ignored(m, NameSet(c.ignored), n) ==>
      Ignored(m, NameSet(c.ignored) - Set(Adds(m, c, upstream)), n)
  }

  /** Detection, as sets. */
  lemma DetectionFacts(m: Matcher, c: Channel, upstream: seq<string>)
    ensures Clean(Adds(m, c, upstream)) && Clean(Removes(c, upstream)) && Clean(Local(c))
    ensures forall n :: n in Set(Adds(m, c, upstream)) <==> n in Uncovered(c, upstream) && !Ignored(m, NameSet(c.ignored), n)
    ensures forall n :: n in Set(Removes(c, upstream)) <==> n in Set(Local(c)) && n !in NameSet(upstream) && n !in c.mapping
    ensures CommaFree(Set(Local(c))) && CommaFree(Set(Removes(c, upstream)))
  {
    hide PendingAdd, PendingRemove, Normalize, GetModels;
    NormalizeFacts(GetModels(c.models));
    PendingAddFacts(m, GetModels(c.models), upstream, c.ignored, c.mapping);
    PendingRemoveFacts(GetModels(c.models), upstream, c.mapping);
    LocalNamesHoldNoComma(c.models);
  }

  /**
   Exactly the names a detection finds to add: offered, not local, no redirect target, and not ignored, neither by an
   equal rule nor by a pattern rule, whose pattern is the trimmed text after its prefix.
   */
  lemma AddsIff(m: Matcher, c: Channel, upstream: seq<string>, n: string)
    ensures n in Adds(m, c, upstream)
       <==> && n in NameSet(upstream) && n !in NameSet(Split(c.models, ',')) && n !in c.mapping.Values
            && !(exists rule :: rule in NameSet(c.ignored)
                                && if "regex:" <= rule then m(TrimSpace(rule[6..]), n) else rule == n)
  {
    hide PendingAdd, PendingRemove, Normalize, GetModels, NameSet, Split;
    DetectionFacts(m, c, upstream);
    NormalizeFacts(GetModels(c.models));
    ColumnNames(c.models);
    assert n in Adds(m, c, upstream) <==> n in Set(Adds(m, c, upstream));
  }

  /** Exactly the names a detection finds to remove. */
  lemma RemovesIff(c: Channel, upstream: seq<string>, n: string)
    ensures n in Removes(c, upstream) <==> n in NameSet(Split(c.models, ',')) && n !in NameSet(upstream) && n !in c.mapping.Keys
  {
    hide PendingAdd, PendingRemove, Normalize, GetModels, NameSet, Split;
    DetectionFacts((p, s) => false, c, upstream);
    NormalizeFacts(GetModels(c.models));
    ColumnNames(c.models);
    assert n in Removes(c, upstream) <==> n in Set(Removes(c, upstream));
  }

  /**
   Ignoring lasts: after any application, for every later upstream, a staged name that was ignored and not added is not
   found again, nor is any name that an ignored pattern matches.
   */
  lemma IgnoredStaysAway(m: Matcher, c: Channel, add: seq<string>, ignore: seq<string>, remove: seq<string>, now: int,
                         upstream: seq<string>, rule: string, n: string)
    requires rule in NameSet(ignore) * NameSet(c.detected) && rule !in NameSet(add)
    requires if "regex:" <= rule then m(TrimSpace(rule[6..]), n) else rule == n
    ensures n !in Adds(m, Apply(c, add, ignore, remove, now).0, upstream)
  {
    hide Apply, Adds, NameSet, Split;
    var (c', r) := Apply(c, add, ignore, remove, now);
    ApplyFacts(c, add, ignore, remove, now);
    assert rule in NameSet(c'.ignored);
    AddsIff(m, c', upstream, n);
  }

  /** The rest of the record: what a detection and an application leave alone, and the time they set. */
  lemma OtherFields(m: Matcher, c: Channel, upstream: seq<string>, add: seq<string>, ignore: seq<string>, remove: seq<string>,
                    now: int, auto: bool)
    ensures var d := Detected(m, c, upstream, now, auto);
            && d.lastCheckTime == now && d.autoSync == c.autoSync && d.mapping == c.mapping && d.ignored == c.ignored
            && d.removed == Removes(c, upstream)
            && (!(auto && c.autoSync) ==> d.models == c.models && d.detected == Adds(m, c, upstream))
            && (auto && c.autoSync ==> d.detected == [])
    ensures var (c', r) := Apply(c, add, ignore, remove, now);
            && c'.lastCheckTime == now && c'.autoSync == c.autoSync && c'.mapping == c.mapping
            && (!r.modelsChanged ==> c'.models == c.models)
  {
    hide Adds, Removes, Normalize, Merged, Intersect, Subtract, ApplySelected, JoinNames, Local;
  }

  lemma EmptySet(xs: seq<string>)
    ensures xs == [] <==> Set(xs) == {}
  {
    assert xs != [] ==> xs[0] in Set(xs);
  }

  /** What applying everything does to the three sets the next detection reads. */
  lemma AppliedAllFacts(m: Matcher, c: Channel, upstream: seq<string>, t1: int, t2: int)
    ensures var c' := StageAndApplyAll(m, c, upstream, t1, t2);
            var adds, removes := Set(Adds(m, c, upstream)), Set(Removes(c, upstream));
            && c'.mapping == c.mapping
            && NameSet(c'.ignored) == NameSet(c.ignored) - adds
            && (CommaFree(adds) ==> Set(Local(c')) == Set(Local(c)) - removes + adds)
  {
    hide Apply, Normalize, GetModels, PendingAdd, PendingRemove, ApplySelected;
    var staged := Detected(m, c, upstream, t1, false);
    DetectionFacts(m, c, upstream);
    NormalizeClean(staged.detected);
    NormalizeClean(staged.removed);
    ApplyFacts(staged, staged.detected, [], staged.removed, t2);
    NextFacts(staged, staged.detected, [], staged.removed, t2);
    ColumnHoldsNextIff(staged, staged.detected, [], staged.removed, t2);
  }

  /**
   Reconciliation converges, exactly when it can: after detecting, applying everything and detecting again with the
   same upstream nothing is pending, if and only if no adopted name holds a comma and no ignored name loses its
   last rule.
   */
  lemma ConvergesIff(m: Matcher, c: Channel, upstream: seq<string>, t1: int, t2: int)
    ensures NothingPending(m, StageAndApplyAll(m, c, upstream, t1, t2), upstream)
       <==> CommaFree(Set(Adds(m, c, upstream))) && RulesSurvive(m, c, upstream)
  {
    hide StageAndApplyAll, Adds, Removes, Local, Set, NameSet, Ignored;
    var c' := StageAndApplyAll(m, c, upstream, t1, t2);
    DetectionFacts(m, c, upstream);
    DetectionFacts(m, c', upstream);
    AppliedAllFacts(m, c, upstream, t1, t2);
    EmptySet(Adds(m, c', upstream));
    EmptySet(Removes(c', upstream));
    if CommaFree(Set(Adds(m, c, upstream))) {
      assert Set(Removes(c', upstream)) == {};
      assert Set(Adds(m, c', upstream)) == set n | n in Uncovered(c, upstream) && Ignored(m, NameSet(c.ignored), n) && !Ignored(m, NameSet(c'.ignored), n);
    } else {
      var n :| n in Set(Adds(m, c, upstream)) && COMMA in n;
      FewerRulesIgnoreLess(m, NameSet(c'.ignored), NameSet(c.ignored), n);
      assert n in Set(Adds(m, c', upstream));
    }
  }

  lemma FewerRulesIgnoreLess(m: Matcher, some: set<string>, all: set<string>, n: string)
    requires some <= all
    ensures Ignored(m, some, n) ==> Ignored(m, all, n)
  {
  }

  /** In particular it converges when upstream names hold no comma and none has the form of a pattern rule. */
  lemma Converges(m: Matcher, c: Channel, upstream: seq<string>, t1: int, t2: int)
    requires forall n :: n in NameSet(upstream) ==> COMMA !in n && !(REGEX_PREFIX <= n)
    ensures NothingPending(m, StageAndApplyAll(m, c, upstream, t1, t2), upstream)
  {
    ConvergesIff(m, c, upstream, t1, t2);
    DetectionFacts(m, c, upstream);
    var adds := Set(Adds(m, c, upstream));
    forall n | n in Uncovered(c, upstream) && Ignored(m, NameSet(c.ignored), n)
      ensures Ignored(m, NameSet(c.ignored) - adds, n)
    {
      var rule :| rule in NameSet(c.ignored) && RuleIgnores(m, rule, n);
      assert rule !in adds;
    }
  }

  lemma NamesOfTrimmed(xs: seq<string>)
    requires Named(Set(xs))
    ensures NameSet(xs) == Set(xs)
  {
  }

  /**
   Without that condition it can fail: a new channel that hides `name` by the pattern rule `rule`, and whose
   upstream offers both, adopts `rule` as a model name and thereby loses the rule.
   */
  lemma PatternNameDefeatsConvergence(m: Matcher, rule: string, name: string)
    requires REGEX_PREFIX <= rule && Trimmed(rule) && name != "" && Trimmed(name)
    requires RuleIgnores(m, rule, name) && !RuleIgnores(m, rule, rule)
    ensures var c := Channel("", map[], [rule], [], [], 0, false);
            !NothingPending(m, StageAndApplyAll(m, c, [rule, name], 0, 0), [rule, name])
  {
    hide StageAndApplyAll, Adds, Removes, NameSet, RuleIgnores, TrimSpace;
    var c, upstream := Channel("", map[], [rule], [], [], 0, false), [rule, name];
    ConvergesIff(m, c, upstream, 0, 0);
    DetectionFacts(m, c, upstream);
    NormalizeClean([]);
    NamesOfTrimmed([rule]);
    NamesOfTrimmed(upstream);
    assert upstream[1] == name;
    assert rule in Set(Adds(m, c, upstream));
    assert name in Uncovered(c, upstream) && Ignored(m, NameSet(c.ignored), name);
    assert !Ignored(m, NameSet(c.ignored) - Set(Adds(m, c, upstream)), name);
  }

  /** A name with a comma fails too: a new channel adopts it as two names and finds it missing again. */
  lemma CommaNameDefeatsConvergence(m: Matcher, name: string)
    requires COMMA in name && Trimmed(name)
    ensures var c := Channel("", map[], [], [], [], 0, false);
            !NothingPending(m, StageAndApplyAll(m, c, [name], 0, 0), [name])
  {
    hide StageAndApplyAll, Adds, Removes, NameSet, RuleIgnores, TrimSpace;
    var c, upstream := Channel("", map[], [], [], [], 0, false), [name];
    ConvergesIff(m, c, upstream, 0, 0);
    DetectionFacts(m, c, upstream);
    NormalizeClean([]);
    NamesOfTrimmed(upstream);
    assert upstream[0] == name;
    assert name in Set(Adds(m, c, upstream));
  }

  // ----- Automatic adoption

  lemma AutoSyncedColumn(m: Matcher, c: Channel, upstream: seq<string>, now: int)
    requires c.autoSync
    ensures var c' := Detected(m, c, upstream, now, true);
            CommaFree(Set(Adds(m, c, upstream))) ==> Set(Local(c')) == Set(Local(c)) + Set(Adds(m, c, upstream))
  {
    hide Normalize, GetModels, PendingAdd, PendingRemove, Merged, JoinNames;
    DetectionFacts(m, c, upstream);
    var adds := Adds(m, c, upstream);
    if adds != [] && CommaFree(Set(adds)) {
      MergedDisjoint(Local(c), adds);
      NoDupConcat(Local(c), adds);
      SetConcat(Local(c), adds);
      ColumnRoundTrip(Local(c) + adds);
    } else {
      EmptySet(adds);
    }
  }

  /** A channel that adopts additions automatically has none pending afterwards if and only if none of them holds a comma; removals stay staged. */
  lemma AutoSyncConvergesIff(m: Matcher, c: Channel, upstream: seq<string>, now: int)
    requires c.autoSync
    ensures var c' := Detected(m, c, upstream, now, true);
            && (Adds(m, c', upstream) == [] <==> CommaFree(Set(Adds(m, c, upstream))))
            && (CommaFree(Set(Adds(m, c, upstream))) ==> Set(Removes(c', upstream)) == Set(Removes(c, upstream)) == Set(c'.removed))
  {
    hide Adds, Removes, Local, Set, NameSet, Ignored, Merged, JoinNames;
    var c' := Detected(m, c, upstream, now, true);
    DetectionFacts(m, c, upstream);
    DetectionFacts(m, c', upstream);
    AutoSyncedColumn(m, c, upstream, now);
    EmptySet(Adds(m, c', upstream));
    if !CommaFree(Set(Adds(m, c, upstream))) {
      var n :| n in Set(Adds(m, c, upstream)) && COMMA in n;
      assert n in Set(Adds(m, c', upstream));
    }
  }
}
