/**
 Choosing one price per model from the models.dev catalogue, where several providers list the same model: the cheapest
 non-zero input cost wins, with costs compared up to an epsilon.
 */
module ModelsDev {
  import opened Prelude

  const EPSILON := 0.000000001

  /** `nearlyEqual`; not transitive. */
  predicate NearlyEqual(a: real, b: real) {
    if a > b then a - b < EPSILON else b - a < EPSILON
  }

  /** Go's order on strings. */
  predicate Less(a: string, b: string) {
    b != "" && (a == "" || a[0] < b[0] || (a[0] == b[0] && Less(a[1..], b[1..])))
  }

  lemma {:induction false} LessIsAsymmetric(a: string, b: string)
    requires Less(a, b)
    ensures !Less(b, a)
  {
    if a != "" && a[0] == b[0] {
      LessIsAsymmetric(a[1..], b[1..]);
    }
  }

  /** Byte order: a proper prefix comes first, otherwise the first difference decides. */
  lemma {:induction false} LessIff(a: string, b: string)
    ensures Less(a, b)
       <==> a < b || exists i :: 0 <= i < |a| && i < |b| && a[..i] == b[..i] && a[i] < b[i]
  {
    if a != "" && b != "" && a[0] == b[0] {
      LessIff(a[1..], b[1..]);
      assert a == [a[0]] + a[1..] && b == [b[0]] + b[1..];
      if i :| 0 <= i < |a[1..]| && i < |b[1..]| && a[1..][..i] == b[1..][..i] && a[1..][i] < b[1..][i] {
        assert a[..i + 1] == [a[0]] + a[1..][..i] && b[..i + 1] == [b[0]] + b[1..][..i];
        assert a[i + 1] < b[i + 1];
      }
      if i :| 0 <= i < |a| && i < |b| && a[..i] == b[..i] && a[i] < b[i] {
        assert i > 0 && a[1..][..i - 1] == a[..i][1..] && b[1..][..i - 1] == b[..i][1..];
        assert a[1..][i - 1] < b[1..][i - 1];
      }
    } else if a != "" && b != "" && a[0] < b[0] {
      assert a[..0] == b[..0];
    } else if a != "" && b != "" {
      assert forall i :: 0 < i <= |a| && i <= |b| ==> a[..i][0] != b[..i][0];
    }
  }

  // ----- Candidates

  datatype Cost = Cost(input: Option<Float>, output: Option<Float>, cacheRead: Option<Float>)

  datatype Candidate = Candidate(provider: string, input: real, output: Option<real>, cacheRead: Option<real>)

  predicate ValidCost(v: Float) {
    v.Finite? && v.value >= 0.0
  }

  /** `buildModelsDevCandidate`: an unusable cache price is dropped, any other unusable price drops the candidate. */
  function BuildCandidate(provider: string, cost: Cost): Option<Candidate> {
    if cost.input.None? || !ValidCost(cost.input.value) then None
    else if cost.output.Some? && !ValidCost(cost.output.value) then None
    else
      var input := cost.input.value.value;
      var output := if cost.output.Some? then Some(cost.output.value.value) else None;
      if input == 0.0 && output.Some? && output.value > 0.0 then None
      else
        var cacheRead :=
          if cost.cacheRead.Some? && ValidCost(cost.cacheRead.value) then Some(cost.cacheRead.value.value) else None;
        Some(Candidate(provider, input, output, cacheRead))
  }

  /** Every candidate can be turned into ratios: its costs are not negative, and a free input has no priced output. */
  lemma CandidatesAreConvertible(provider: string, cost: Cost)
    ensures var c := BuildCandidate(provider, cost);
            c.Some? <==> && cost.input.Some? && ValidCost(cost.input.value)
                         && (cost.output.Some? ==> ValidCost(cost.output.value)
                                                   && (cost.input.value.value == 0.0 ==> cost.output.value.value == 0.0))
    ensures var c := BuildCandidate(provider, cost);
            c.Some? ==> && c.value.provider == provider && cost.input == Some(Finite(c.value.input)) && c.value.input >= 0.0
                        && (c.value.output.Some? <==> cost.output.Some?)
                        && (c.value.output.Some? ==> cost.output == Some(Finite(c.value.output.value)) && c.value.output.value >= 0.0)
                        && (c.value.cacheRead.Some? <==> cost.cacheRead.Some? && ValidCost(cost.cacheRead.value))
                        && (c.value.cacheRead.Some? ==> cost.cacheRead == Some(Finite(c.value.cacheRead.value)) && c.value.cacheRead.value >= 0.0)
  {
  }

  /** `shouldReplaceModelsDevCandidate`. */
  predicate ShouldReplace(current: Candidate, next: Candidate) {
    if (current.input > 0.0) != (next.input > 0.0) then next.input > 0.0
    else if next.input > 0.0 && !NearlyEqual(next.input, current.input) then next.input < current.input
    else Less(next.provider, current.provider)
  }

  /** The candidate left after offering them one by one. */
  function Select(cands: seq<Candidate>): (r: Option<Candidate>)
    ensures r.None? <==> cands == []
    ensures r.Some? ==> r.value in cands
  {
    if cands == [] then None
    else
      var current, next := Select(cands[..|cands| - 1]), cands[|cands| - 1];
      if current.None? || ShouldReplace(current.value, next) then Some(next) else current
  }

  // ----- The catalogue

  type Catalogue = map<string, map<string, Cost>>

  ghost predicate SortedProviders(providers: seq<string>) {
    forall i, j :: 0 <= i < j < |providers| ==> Less(providers[i], providers[j])
  }

  /** The valid candidates of one model, in the order of the providers. */
  function Offers(data: Catalogue, providers: seq<string>, model: string): seq<Candidate> {
    if providers == [] then []
    else Offers(data, providers[..|providers| - 1], model) + OfferOf(data, providers[|providers| - 1], model)
  }

  function OfferOf(data: Catalogue, provider: string, model: string): seq<Candidate> {
    if provider in data && model in data[provider] then
      var c := BuildCandidate(provider, data[provider][model]);
      if c.Some? then [c.value] else []
    else []
  }

  /** The selection for every model that has a valid candidate. */
  ghost predicate Selects(data: Catalogue, providers: seq<string>, selected: map<string, Candidate>) {
    forall m :: (m in selected <==> Offers(data, providers, m) != [])
             && (m in selected ==> Select(Offers(data, providers, m)) == Some(selected[m]))
  }

  /** Exactly the convertible costs that the providers list for the model are offered. */
  lemma {:induction false} OffersIff(data: Catalogue, providers: seq<string>, model: string, c: Candidate)
    ensures c in Offers(data, providers, model)
       <==> exists i :: 0 <= i < |providers| && providers[i] in data && model in data[providers[i]]
                        && BuildCandidate(providers[i], data[providers[i]][model]) == Some(c)
  {
    if providers != [] {
      hide BuildCandidate;
      var front, last := providers[..|providers| - 1], |providers| - 1;
      OffersIff(data, front, model, c);
      assert forall i :: 0 <= i < |front| ==> front[i] == providers[i];
      assert c in OfferOf(data, providers[last], model)
        <==> providers[last] in data && model in data[providers[last]]
             && BuildCandidate(providers[last], data[providers[last]][model]) == Some(c);
    }
  }

  lemma OffersAppend(data: Catalogue, providers: seq<string>, i: nat, model: string)
    requires i < |providers|
    ensures Offers(data, providers[..i + 1], model) == Offers(data, providers[..i], model) + OfferOf(data, providers[i], model)
  {
    assert providers[..i + 1][..i] == providers[..i];
  }

  lemma SelectAppend(cands: seq<Candidate>, next: Candidate)
    ensures Select(cands + [next])
         == if cands == [] || ShouldReplace(Select(cands).value, next) then Some(next) else Select(cands)
  {
    assert (cands + [next])[..|cands|] == cands;
  }

  /** The selection loop; `providers` are the catalogue's keys as `sort.Strings` leaves them. */
  method SelectCandidates(data: Catalogue, providers: seq<string>) returns (selected: map<string, Candidate>)
    requires forall p :: p in providers ==> p in data
    ensures Selects(data, providers, selected)
  {
    selected := map[];
    for i := 0 to |providers|
      invariant Selects(data, providers[..i], selected)
    {
      selected := VisitProvider(data, providers, i, selected);
    }
    assert providers[..|providers|] == providers;
  }

  /** The inner loop over one provider's models. */
  method VisitProvider(data: Catalogue, providers: seq<string>, i: nat, before: map<string, Candidate>)
    returns (selected: map<string, Candidate>)
    requires i < |providers| && providers[i] in data && Selects(data, providers[..i], before)
    ensures Selects(data, providers[..i + 1], selected)
  {
    hide Offers, Select, ShouldReplace, BuildCandidate;
    var provider := providers[i];
    selected := before;
    var todo := data[provider].Keys;
    while todo != {}
      invariant todo <= data[provider].Keys
      invariant forall m :: m in todo || m !in data[provider] ==> (m in selected <==> m in before)
      invariant forall m :: (m in todo || m !in data[provider]) && m in before ==> selected[m] == before[m]
      invariant forall m :: m in data[provider] && m !in todo ==> Chosen(data, provider, before, selected, m)
      decreases |todo|
    {
      var modelName :| modelName in todo;
      todo := todo - {modelName};
      var candidate := BuildCandidate(provider, data[provider][modelName]);
      if candidate.Some? {
        if modelName !in selected || ShouldReplace(selected[modelName], candidate.value) {
          selected := selected[modelName := candidate.value];
        }
      }
    }
    forall m
      ensures m in selected <==> Offers(data, providers[..i + 1], m) != []
      ensures m in selected ==> Select(Offers(data, providers[..i + 1], m)) == Some(selected[m])
    {
      OffersAppend(data, providers, i, m);
      var offers, offer := Offers(data, providers[..i], m), OfferOf(data, provider, m);
      if offer == [] {
        assert offers + offer == offers;
      } else {
        SelectAppend(offers, offer[0]);
        assert offers + offer == offers + [offer[0]];
      }
    }
  }

  /** One model's entry after its candidate, if valid, was offered. */
  ghost predicate Chosen(data: Catalogue, provider: string, before: map<string, Candidate>, after: map<string, Candidate>, m: string) {
    var offer := OfferOf(data, provider, m);
    if offer == [] then (m in after <==> m in before) && (m in after ==> after[m] == before[m])
    else m in after && after[m] == if m !in before || ShouldReplace(before[m], offer[0]) then offer[0] else before[m]
  }

  // ----- What the selection achieves

  ghost predicate InProviderOrder(cands: seq<Candidate>) {
    && (forall i :: 0 <= i < |cands| ==> cands[i].input >= 0.0)
    && (forall i, j :: 0 <= i < j < |cands| ==> Less(cands[i].provider, cands[j].provider))
  }

  lemma {:induction false} OffersAreInProviderOrder(data: Catalogue, providers: seq<string>, model: string)
    requires SortedProviders(providers)
    ensures InProviderOrder(Offers(data, providers, model))
    ensures forall i :: 0 <= i < |Offers(data, providers, model)| ==> Offers(data, providers, model)[i].provider in providers
  {
    if providers != [] {
      OffersAreInProviderOrder(data, providers[..|providers| - 1], model);
    }
  }

  /** With providers in sorted order the tie-break on names never fires: a replacement is the first price or a real saving. */
  lemma ReplacementsAreImprovements(cands: seq<Candidate>, next: Candidate)
    requires cands != [] && InProviderOrder(cands + [next])
    ensures var current := Select(cands).value;
            && !Less(next.provider, current.provider)
            && (ShouldReplace(current, next)
                <==> next.input > 0.0 && (current.input == 0.0 || next.input + EPSILON <= current.input))
  {
    var current := Select(cands).value;
    var i :| 0 <= i < |cands| && cands[i] == current;
    assert (cands + [next])[i] == current && (cands + [next])[|cands|] == next;
    LessIsAsymmetric(current.provider, next.provider);
  }

  /** Zero only if nothing else is offered, and otherwise within epsilon of every non-zero price. */
  ghost predicate CheapestNonZero(cands: seq<Candidate>, chosen: Candidate) {
    if chosen.input > 0.0 then forall i :: 0 <= i < |cands| && cands[i].input > 0.0 ==> chosen.input < cands[i].input + EPSILON
    else forall i :: 0 <= i < |cands| ==> cands[i].input == 0.0
  }

  /**
   For every model the chosen candidate is non-zero if and only if some candidate is, and then its cost is below every
   non-zero cost plus epsilon, although the comparison up to epsilon is not transitive.
   */
  lemma {:induction false} SelectionIsCheapest(cands: seq<Candidate>)
    requires cands != [] && InProviderOrder(cands)
    ensures CheapestNonZero(cands, Select(cands).value)
  {
    var front, next := cands[..|cands| - 1], cands[|cands| - 1];
    assert cands == front + [next];
    if front != [] {
      SelectionIsCheapest(front);
      ReplacementsAreImprovements(front, next);
    }
  }

  lemma CatalogueSelectionIsCheapest(data: Catalogue, providers: seq<string>, selected: map<string, Candidate>, m: string)
    requires SortedProviders(providers) && Selects(data, providers, selected) && m in selected
    ensures selected[m] in Offers(data, providers, m) && CheapestNonZero(Offers(data, providers, m), selected[m])
  {
    OffersAreInProviderOrder(data, providers, m);
    SelectionIsCheapest(Offers(data, providers, m));
  }

  /** Offering more candidates never raises a non-zero price. */
  lemma LaterOffersOnlyLower(cands: seq<Candidate>, next: Candidate)
    requires cands != [] && InProviderOrder(cands + [next])
    ensures var before, after := Select(cands).value, Select(cands + [next]).value;
            before.input > 0.0 ==> 0.0 < after.input <= before.input && (after != before ==> after.input + EPSILON <= before.input)
  {
    ReplacementsAreImprovements(cands, next);
    SelectAppend(cands, next);
  }

  /** Sorting matters: in reverse order the tie-break can drift away from the cheapest price. */
  lemma UnsortedSelectionDrifts()
    ensures var cands := [Candidate("c", 1.0, None, None), Candidate("b", 1.0000000009, None, None),
                          Candidate("a", 1.0000000018, None, None)];
            Select(cands) == Some(cands[2]) && !CheapestNonZero(cands, cands[2])
  {
    var cands := [Candidate("c", 1.0, None, None), Candidate("b", 1.0000000009, None, None),
                  Candidate("a", 1.0000000018, None, None)];
    assert Less("b", "c") && Less("a", "b");
    SelectAppend([], cands[0]);
    SelectAppend([cands[0]], cands[1]);
    SelectAppend([cands[0], cands[1]], cands[2]);
    assert [] + [cands[0]] == [cands[0]] && [cands[0]] + [cands[1]] == [cands[0], cands[1]];
    assert [cands[0], cands[1]] + [cands[2]] == cands;
    assert cands[0].input > 0.0;
  }
  /**
   The catalogue read directly: a model is selected exactly if some provider lists a convertible cost for it, the
   selected cost is one of those, and it lies below every convertible non-zero cost plus 10^-9.
   */
  lemma SelectedPriceIsCheapest(data: Catalogue, providers: seq<string>, selected: map<string, Candidate>, model: string)
    requires SortedProviders(providers) && Selects(data, providers, selected)
    ensures model in selected <==> exists p :: p in providers && Convertible(data, p, model)
    ensures model in selected ==>
              && var p := selected[model].provider;
                 p in providers && Convertible(data, p, model) && data[p][model].input == Some(Finite(selected[model].input))
    ensures forall p :: p in providers && Convertible(data, p, model) && data[p][model].input.value.value > 0.0 ==>
              0.0 < selected[model].input < data[p][model].input.value.value + 0.000000001
  {
    hide Offers, Select, BuildCandidate;
    var offers := Offers(data, providers, model);
    forall p | p in providers && Convertible(data, p, model)
      ensures exists c :: c in offers && c.input == data[p][model].input.value.value
    {
      var i :| 0 <= i < |providers| && providers[i] == p;
      CandidatesAreConvertible(p, data[p][model]);
      OffersIff(data, providers, model, BuildCandidate(p, data[p][model]).value);
    }
    if model in selected {
      CatalogueSelectionIsCheapest(data, providers, selected, model);
      OffersIff(data, providers, model, selected[model]);
      var i :| 0 <= i < |providers| && providers[i] in data && model in data[providers[i]]
               && BuildCandidate(providers[i], data[providers[i]][model]) == Some(selected[model]);
      CandidatesAreConvertible(providers[i], data[providers[i]][model]);
    }
    forall p | p in providers && Convertible(data, p, model) && data[p][model].input.value.value > 0.0
      ensures 0.0 < selected[model].input < data[p][model].input.value.value + 0.000000001
    {
      var c :| c in offers && c.input == data[p][model].input.value.value;
      var j :| 0 <= j < |offers| && offers[j] == c;
    }
  }

  /** A listed cost that can be turned into ratios: no negative or infinite price, and no priced output with a free input. */
  predicate Convertible(data: Catalogue, provider: string, model: string) {
    && provider in data && model in data[provider]
    && var cost := data[provider][model];
       && cost.input.Some? && cost.input.value.Finite? && cost.input.value.value >= 0.0
       && (cost.output.Some? ==>
             && cost.output.value.Finite? && cost.output.value.value >= 0.0
             && (cost.input.value.value == 0.0 ==> cost.output.value.value == 0.0))
  }
}
