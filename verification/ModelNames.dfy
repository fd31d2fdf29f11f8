/**
 Ordered lists of model names as a set algebra: normalising, merging, subtracting and intersecting keep the order
 of first occurrence, drop blanks and repeats, and act on the underlying sets as the names say.
 */
module ModelNames {
  import opened OrderedSets

  // ----- strings.TrimSpace

  /** `unicode.IsSpace`. */
  predicate IsSpace(c: char) {
    var x := c as int;
    || 9 <= x <= 13 || x == 32 || x == 0x85 || x == 0xA0 || x == 0x1680 || 0x2000 <= x <= 0x200A
    || x == 0x2028 || x == 0x2029 || x == 0x202F || x == 0x205F || x == 0x3000
  }

  /** The white space of the Unicode standard, character by character. */
  lemma SpacesAre(c: char)
    ensures IsSpace(c)
       <==> c as int in [9, 10, 11, 12, 13, 32, 133, 160, 5760, 8192, 8193, 8194, 8195, 8196, 8197, 8198, 8199, 8200, 8201,
                         8202, 8232, 8233, 8239, 8287, 12288]
  {
  }

  predicate Trimmed(s: string) {
    s != [] ==> !IsSpace(s[0]) && !IsSpace(s[|s| - 1])
  }

  /** What is left starts at the first character that is not a space. */
  function TrimLeft(s: string): (r: string)
    ensures |r| <= |s| && r == s[|s| - |r|..]
    ensures forall i :: 0 <= i < |s| - |r| ==> IsSpace(s[i])
    ensures r != [] ==> !IsSpace(r[0])
  {
    if s != [] && IsSpace(s[0]) then TrimLeft(s[1..]) else s
  }

  /** What is left ends at the last character that is not a space. */
  function TrimRight(s: string): (r: string)
    ensures |r| <= |s| && r == s[..|r|]
    ensures forall i :: |r| <= i < |s| ==> IsSpace(s[i])
    ensures r != [] ==> !IsSpace(r[|r| - 1])
  {
    if s != [] && IsSpace(s[|s| - 1]) then TrimRight(s[..|s| - 1]) else s
  }

  function TrimSpace(s: string): (r: string)
    ensures Trimmed(r)
    ensures Trimmed(s) ==> r == s
  {
    TrimRight(TrimLeft(s))
  }

  /** Trimming cuts off spaces only: the result is a stretch of the text with nothing but spaces around it. */
  lemma TrimSpaceFacts(s: string) returns (i: nat, j: nat)
    ensures i <= j <= |s| && TrimSpace(s) == s[i..j] && Trimmed(TrimSpace(s))
    ensures forall k :: 0 <= k < |s| && !(i <= k < j) ==> IsSpace(s[k])
  {
    var left := TrimLeft(s);
    i := |s| - |left|;
    j := i + |TrimRight(left)|;
    assert forall k :: j <= k < |s| ==> s[k] == left[k - i];
  }

  // ----- The algebra

  predicate Named(s: set<string>) {
    forall x :: x in s ==> x != "" && Trimmed(x)
  }

  /** What normalising produces: distinct, trimmed, non-empty names. */
  predicate Clean(xs: seq<string>) {
    NoDup(xs) && Named(Set(xs))
  }

  /** `lo.FilterMap` with trimming: blanks are dropped. */
  function TrimAll(models: seq<string>): seq<string> {
    if models == [] then []
    else
      var r, name := TrimAll(models[..|models| - 1]), TrimSpace(models[|models| - 1]);
      if name == "" then r else r + [name]
  }

  lemma {:induction false} TrimAllFacts(models: seq<string>)
    ensures Set(TrimAll(models)) == NameSet(models)
  {
    if models != [] {
      var front := models[..|models| - 1];
      TrimAllFacts(front);
      NameSetFront(models);
      SetAppend(TrimAll(front), TrimSpace(models[|models| - 1]));
    }
  }

  /** The trimmed, non-empty names of a raw list. */
  function NameSet(models: seq<string>): (s: set<string>)
    ensures Named(s)
  {
    set m | m in models && TrimSpace(m) != "" :: TrimSpace(m)
  }

  lemma NameSetFront(models: seq<string>)
    requires models != []
    ensures var name := TrimSpace(models[|models| - 1]);
            NameSet(models) == NameSet(models[..|models| - 1]) + if name == "" then {} else {name}
  {
    assert models == models[..|models| - 1] + [models[|models| - 1]];
  }

  /** `normalizeModelNames`: trimmed, blanks dropped, first occurrences kept. */
  function Normalize(models: seq<string>): seq<string> {
    Uniq(TrimAll(models))
  }

  lemma NormalizeFacts(models: seq<string>)
    ensures Clean(Normalize(models)) && Set(Normalize(models)) == NameSet(models)
  {
    TrimAllFacts(models);
    UniqFacts(TrimAll(models));
  }

  lemma {:induction false} TrimAllClean(xs: seq<string>)
    requires Named(Set(xs))
    ensures TrimAll(xs) == xs
  {
    if xs != [] {
      var front, x := xs[..|xs| - 1], xs[|xs| - 1];
      SetFront(xs);
      hide TrimAll, TrimSpace, Set;
      TrimAllClean(front);
      TrimAllAppend(front, x);
      assert xs == front + [x];
    }
  }

  /** Normalising takes each name where it first stands in the trimmed list. */
  lemma NormalizeTakesFirst(models: seq<string>, j: nat)
    requires j < |Normalize(models)|
    ensures var names, r := seq(|models|, i requires 0 <= i < |models| => TrimSpace(models[i])), Normalize(models);
            exists b :: 0 <= b < |models| && names[b] == r[j] && r[j] !in names[..b] && forall i :: 0 <= i < j ==> r[i] in names[..b]
  {
    hide Uniq, TrimSpace;
    var names, kept, r := seq(|models|, i requires 0 <= i < |models| => TrimSpace(models[i])), TrimAll(models), Normalize(models);
    UniqTakesFirst(kept, j);
    var b :| 0 <= b < |kept| && kept[b] == r[j] && r[j] !in kept[..b] && forall i :: 0 <= i < j ==> r[i] in kept[..b];
    var a := TrimAllPlace(models, b);
    assert forall x :: x != "" ==> (x in names[..a] <==> x in kept[..b]);
    NormalizeFacts(models);
    assert r[j] in Set(r);
    forall i | 0 <= i < j ensures r[i] in names[..a] {
      assert r[i] in Set(r);
    }
  }

  /** Where the element of a trimmed list stood before blanks were dropped. */
  lemma {:induction false} TrimAllPlace(models: seq<string>, b: nat) returns (a: nat)
    requires b < |TrimAll(models)|
    ensures a < |models| && TrimSpace(models[a]) == TrimAll(models)[b]
    ensures var names := seq(|models|, i requires 0 <= i < |models| => TrimSpace(models[i]));
            forall x :: x != "" ==> (x in names[..a] <==> x in TrimAll(models)[..b])
  {
    hide TrimSpace;
    var front, last := models[..|models| - 1], |models| - 1;
    var names := seq(|models|, i requires 0 <= i < |models| => TrimSpace(models[i]));
    var frontNames := seq(|front|, i requires 0 <= i < |front| => TrimSpace(front[i]));
    assert frontNames == names[..last];
    if b < |TrimAll(front)| {
      a := TrimAllPlace(front, b);
      assert frontNames[..a] == names[..a] && TrimAll(front)[..b] == TrimAll(models)[..b];
    } else {
      a := last;
      assert TrimAll(models)[..b] == TrimAll(front);
      TrimAllHas(front);
    }
  }

  lemma {:induction false} TrimAllHas(models: seq<string>)
    ensures var names := seq(|models|, i requires 0 <= i < |models| => TrimSpace(models[i]));
            forall x :: x != "" ==> (x in names <==> x in TrimAll(models))
  {
    hide TrimSpace;
    if models != [] {
      var front, last := models[..|models| - 1], |models| - 1;
      var names := seq(|models|, i requires 0 <= i < |models| => TrimSpace(models[i]));
      var frontNames := seq(|front|, i requires 0 <= i < |front| => TrimSpace(front[i]));
      TrimAllHas(front);
      assert names == frontNames + [names[last]];
    }
  }

  /** Clean lists are normal already; in particular normalising twice is normalising once. */
  lemma NormalizeClean(xs: seq<string>)
    requires Clean(xs)
    ensures Normalize(xs) == xs && NameSet(xs) == Set(xs)
  {
    TrimAllClean(xs);
    TrimAllFacts(xs);
    UniqOfDistinct(xs);
  }

  function Merged(base: seq<string>, appended: seq<string>): seq<string> {
    Normalize(base) + Without(Normalize(appended), Set(Normalize(base)))
  }

  function Subtract(base: seq<string>, removed: seq<string>): seq<string> {
    Without(Normalize(base), Set(Normalize(removed)))
  }

  function Intersect(base: seq<string>, allowed: seq<string>): seq<string> {
    Within(Normalize(base), Set(Normalize(allowed)))
  }

  lemma MergedFacts(base: seq<string>, appended: seq<string>)
    ensures Clean(Merged(base, appended)) && Set(Merged(base, appended)) == NameSet(base) + NameSet(appended)
  {
    NormalizeFacts(base);
    NormalizeFacts(appended);
    var b, a := Normalize(base), Without(Normalize(appended), Set(Normalize(base)));
    WithoutFacts(Normalize(appended), Set(b));
    NoDupConcat(b, a);
    SetConcat(b, a);
  }

  lemma SubtractFacts(base: seq<string>, removed: seq<string>)
    ensures Clean(Subtract(base, removed)) && Set(Subtract(base, removed)) == NameSet(base) - NameSet(removed)
    ensures InOrderOf(Subtract(base, removed), Normalize(base))
  {
    WithoutKeepsOrder(Normalize(base), Set(Normalize(removed)));
    NormalizeFacts(base);
    NormalizeFacts(removed);
    WithoutFacts(Normalize(base), Set(Normalize(removed)));
  }

  lemma IntersectFacts(base: seq<string>, allowed: seq<string>)
    ensures Clean(Intersect(base, allowed)) && Set(Intersect(base, allowed)) == NameSet(base) * NameSet(allowed)
    ensures InOrderOf(Intersect(base, allowed), Normalize(base))
  {
    WithinKeepsOrder(Normalize(base), Set(Normalize(allowed)));
    NormalizeFacts(base);
    NormalizeFacts(allowed);
    WithinFacts(Normalize(base), Set(Normalize(allowed)));
  }

  lemma TrimAllAppend(xs: seq<string>, x: string)
    ensures TrimAll(xs + [x]) == if TrimSpace(x) == "" then TrimAll(xs) else TrimAll(xs) + [TrimSpace(x)]
  {
    var all := xs + [x];
    assert all[..|all| - 1] == xs;
  }

  lemma {:induction false} TrimAllConcat(xs: seq<string>, ys: seq<string>)
    ensures TrimAll(xs + ys) == TrimAll(xs) + TrimAll(ys)
  {
    if ys == [] {
      assert xs + ys == xs && TrimAll(xs) + [] == TrimAll(xs);
    } else {
      hide TrimAll, TrimSpace;
      var front, y := ys[..|ys| - 1], ys[|ys| - 1];
      assert xs + ys == (xs + front) + [y] && ys == front + [y];
      TrimAllConcat(xs, front);
      TrimAllConcatStep(xs, front, y);
    }
  }

  lemma TrimAllConcatStep(xs: seq<string>, front: seq<string>, y: string)
    requires TrimAll(xs + front) == TrimAll(xs) + TrimAll(front)
    ensures TrimAll((xs + front) + [y]) == TrimAll(xs) + TrimAll(front + [y])
  {
    hide TrimAll, TrimSpace;
    TrimAllAppend(xs + front, y);
    TrimAllAppend(front, y);
    var a, b := TrimAll(xs), TrimAll(front);
    assert a + (b + [TrimSpace(y)]) == (a + b) + [TrimSpace(y)];
  }

  /** Merging is normalising the concatenation. */
  lemma MergedIsNormalizedConcat(base: seq<string>, appended: seq<string>)
    ensures Merged(base, appended) == Normalize(base + appended)
  {
    TrimAllConcat(base, appended);
    UniqConcat(TrimAll(base), TrimAll(appended));
    UniqFacts(TrimAll(base));
  }

  /** `applySelectedModelChanges`. */
  function ApplySelected(origin: seq<string>, add: seq<string>, remove: seq<string>): seq<string> {
    var adds := Normalize(add);
    var removes := Subtract(Normalize(remove), adds);
    Subtract(Merged(origin, adds), removes)
  }

  /** An addition wins over a removal of the same name. */
  lemma ApplySelectedFacts(origin: seq<string>, add: seq<string>, remove: seq<string>)
    ensures var next := ApplySelected(origin, add, remove);
            Clean(next) && Set(next) == (NameSet(origin) - NameSet(remove)) + NameSet(add)
  {
    var adds, rems := Normalize(add), Normalize(remove);
    NormalizeFacts(add);
    NormalizeFacts(remove);
    NormalizeClean(adds);
    NormalizeClean(rems);
    SubtractFacts(rems, adds);
    NormalizeClean(Subtract(rems, adds));
    MergedFacts(origin, adds);
    NormalizeClean(Merged(origin, adds));
    SubtractFacts(Merged(origin, adds), Subtract(rems, adds));
  }

  /** The survivors come first and in their old order, the additions after them in theirs. */
  lemma ApplySelectedOrder(origin: seq<string>, add: seq<string>, remove: seq<string>)
    ensures var next := ApplySelected(origin, add, remove);
            next == Within(Normalize(origin), Set(next)) + Without(Normalize(add), NameSet(origin))
  {
    var adds, rems, base := Normalize(add), Normalize(remove), Normalize(origin);
    NormalizeFacts(add);
    NormalizeFacts(remove);
    NormalizeFacts(origin);
    NormalizeClean(adds);
    NormalizeClean(rems);
    var removes, merged := Subtract(rems, adds), Merged(origin, adds);
    SubtractFacts(rems, adds);
    MergedFacts(origin, adds);
    NormalizeClean(removes);
    NormalizeClean(merged);
    ApplySelectedFacts(origin, add, remove);
    var next, news := ApplySelected(origin, add, remove), Without(adds, NameSet(origin));
    var kept := Set(merged) - Set(removes);
    assert merged == base + news && next == Within(merged, kept);
    WithoutFacts(adds, NameSet(origin));
    WithinConcat(base, news, kept);
    WithinAll(news, kept);
    WithinAgree(base, kept, Set(next));
  }

  /** `mergeModelNames`. */
  method MergeModelNames(base: seq<string>, appended: seq<string>) returns (merged: seq<string>)
    ensures merged == Merged(base, appended)
  {
    NormalizeFacts(appended);
    merged := AppendUnseen(Normalize(base), Normalize(appended));
  }
}
