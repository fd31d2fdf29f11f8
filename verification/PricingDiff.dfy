/**
 Comparing local prices with those of several upstream channels.  `buildDifferences` works in four phases (collect
 the models, rate each channel's confidence, build one entry per model and field, prune); the theorems say what the
 entries that come out mean.
 */
module PricingDiff {
  import opened Prelude
  import opened ModelsDev

  /** A decoded JSON value; `Null` is also Go's nil. */
  datatype Value = Null | Num(n: real) | Int(i: int) | Text(s: string) | Bool(b: bool)

  const SAME := Text("same")

  const FIELDS: seq<string> :=
    ["model_ratio", "completion_ratio", "cache_ratio", "create_cache_ratio", "image_ratio", "audio_ratio",
     "audio_completion_ratio", "model_price", "billing_mode", "billing_expr"]

  predicate Numeric(field: string) {
    field in FIELDS[..8]
  }

  /** Prices by field, then by model. */
  type Prices = map<string, map<string, Value>>

  datatype Source = Source(name: string, data: Prices)

  datatype Item = Item(current: Value, upstreams: map<string, Value>, confidence: map<string, bool>)

  /** An entry's place: model and field. */
  datatype Key = Key(model: string, field: string)

  function AsFloat(v: Value): Option<real> {
    match v
    case Num(n) => Some(n)
    case Int(i) => Some(i as real)
    case _ => None
  }

  function NormalizeValue(field: string, v: Value): Value {
    if Numeric(field) && AsFloat(v).Some? then Num(AsFloat(v).value) else v
  }

  predicate ValuesEqual(a: Value, b: Value) {
    if a.Num? && b.Num? then NearlyEqual(a.n, b.n) else a == b
  }

  function Get(d: Prices, k: Key): Option<Value> {
    if k.field in d && k.model in d[k.field] then Some(NormalizeValue(k.field, d[k.field][k.model])) else None
  }

  function LocalValue(local: Prices, k: Key): Value {
    match Get(local, k)
    case None => Null
    case Some(v) => v
  }

  // ----- One entry

  /** What is recorded for one channel. */
  function Cell(localValue: Value, up: Option<Value>): Value {
    match up
    case None => if localValue.Null? then SAME else Null
    case Some(v) => if ValuesEqual(localValue, v) then SAME else v
  }

  /** The channel supplies a value that differs from the local one, up to epsilon. */
  predicate Supplies(local: Prices, ch: Source, k: Key) {
    var up := Get(ch.data, k);
    up.Some? && !ValuesEqual(LocalValue(local, k), up.value)
  }

  predicate Included(local: Prices, chans: seq<Source>, k: Key) {
    if LocalValue(local, k).Null? then exists i :: 0 <= i < |chans| && Get(chans[i].data, k).Some?
    else exists i :: 0 <= i < |chans| && Supplies(local, chans[i], k)
  }

  /** The prices of a channel for a model are the untouched defaults of a freshly installed upstream. */
  predicate Distrusted(ch: Source, model: string) {
    && "model_ratio" in ch.data && model in ch.data["model_ratio"]
    && "completion_ratio" in ch.data && model in ch.data["completion_ratio"]
    && (var a, b := AsFloat(ch.data["model_ratio"][model]), AsFloat(ch.data["completion_ratio"][model]);
        a.Some? && b.Some? && NearlyEqual(a.value, 37.5) && NearlyEqual(b.value, 1.0))
  }

  /** Later channels of the same name overwrite earlier ones. */
  function Upstreams(local: Prices, chans: seq<Source>, k: Key): map<string, Value> {
    if chans == [] then map[]
    else
      var ch := chans[|chans| - 1];
      Upstreams(local, chans[..|chans| - 1], k)[ch.name := Cell(LocalValue(local, k), Get(ch.data, k))]
  }

  function Confidences(chans: seq<Source>, model: string): map<string, bool> {
    if chans == [] then map[]
    else
      var ch := chans[|chans| - 1];
      Confidences(chans[..|chans| - 1], model)[ch.name := !Distrusted(ch, model)]
  }

  function ItemOf(local: Prices, chans: seq<Source>, k: Key): Item {
    Item(LocalValue(local, k), Upstreams(local, chans, k), Confidences(chans, k.model))
  }

  // ----- All entries

  function ModelsOf(d: Prices): set<string> {
    set f, m | f in FIELDS && f in d && m in d[f] :: m
  }

  function AllModels(local: Prices, chans: seq<Source>): set<string> {
    if chans == [] then ModelsOf(local)
    else AllModels(local, chans[..|chans| - 1]) + ModelsOf(chans[|chans| - 1].data)
  }

  function KeysOf(models: set<string>): set<Key> {
    set m, f | m in models && f in FIELDS :: Key(m, f)
  }

  type Differences = map<Key, Item>

  /** The entries over a set of places, before pruning. */
  function Raw(local: Prices, chans: seq<Source>, keys: set<Key>): Differences {
    map k | k in keys && Included(local, chans, k) :: ItemOf(local, chans, k)
  }

  predicate Real(v: Value) {
    v != Null && v != SAME
  }

  /** Channels with a real difference in some entry. */
  function Differing(d: Differences): set<string> {
    set k, n | k in d && n in d[k].upstreams && Real(d[k].upstreams[n]) :: n
  }

  function Restrict(item: Item, names: set<string>): Item {
    item.(upstreams := map n | n in item.upstreams && n in names :: item.upstreams[n],
          confidence := map n | n in item.confidence && n in names :: item.confidence[n])
  }

  predicate Empty(item: Item) {
    forall n :: n in item.upstreams ==> item.upstreams[n] == SAME
  }

  function Pruned(d: Differences, names: set<string>): Differences {
    map k | k in d && !Empty(Restrict(d[k], names)) :: Restrict(d[k], names)
  }

  function AllKeys(local: Prices, chans: seq<Source>): set<Key> {
    KeysOf(AllModels(local, chans))
  }

  /** `buildDifferences`. */
  function BuildDifferences(local: Prices, chans: seq<Source>): Differences {
    var raw := Raw(local, chans, AllKeys(local, chans));
    Pruned(raw, Differing(raw))
  }

  // ----- What the entries mean

  ghost predicate DistinctNames(chans: seq<Source>) {
    forall i, j :: 0 <= i < j < |chans| ==> chans[i].name != chans[j].name
  }

  /** No later channel has the same name and overwrites this one. */
  ghost predicate Last(chans: seq<Source>, i: int) {
    0 <= i < |chans| && forall j :: i < j < |chans| ==> chans[j].name != chans[i].name
  }

  /** The channel supplies somewhere a differing value that is neither null nor the literal text "same". */
  ghost predicate HasReal(local: Prices, ch: Source) {
    exists k: Key :: k.field in FIELDS && Supplies(local, ch, k) && Real(Get(ch.data, k).value)
  }

  /** No channel supplies null or the literal text "same". */
  ghost predicate ProperValues(chans: seq<Source>) {
    forall i, k :: 0 <= i < |chans| && Get(chans[i].data, k).Some? ==> Real(Get(chans[i].data, k).value)
  }

  ghost predicate SomeChannelDiffers(local: Prices, chans: seq<Source>, k: Key) {
    exists i :: 0 <= i < |chans| && Supplies(local, chans[i], k)
  }

  /** Both columns of an entry range over the channel names, and every cell is some channel's. */
  lemma {:induction false} ColumnsFacts(local: Prices, chans: seq<Source>, k: Key)
    ensures Upstreams(local, chans, k).Keys == Confidences(chans, k.model).Keys
    ensures forall i :: 0 <= i < |chans| ==> chans[i].name in Upstreams(local, chans, k)
    ensures forall n :: n in Upstreams(local, chans, k) ==>
              exists i :: 0 <= i < |chans| && chans[i].name == n && Upstreams(local, chans, k)[n] == Cell(LocalValue(local, k), Get(chans[i].data, k))
  {
    hide Get, LocalValue, Cell, Distrusted;
    if chans != [] {
      var front, last := chans[..|chans| - 1], |chans| - 1;
      ColumnsFacts(local, front, k);
      forall n | n in Upstreams(local, chans, k)
        ensures exists i :: 0 <= i < |chans| && chans[i].name == n && Upstreams(local, chans, k)[n] == Cell(LocalValue(local, k), Get(chans[i].data, k))
      {
        if n == chans[last].name {
          assert Upstreams(local, chans, k)[n] == Cell(LocalValue(local, k), Get(chans[last].data, k));
        } else {
          var i :| 0 <= i < |front| && front[i].name == n && Upstreams(local, front, k)[n] == Cell(LocalValue(local, k), Get(front[i].data, k));
          assert chans[i] == front[i];
        }
      }
    }
  }

  /** The last channel of a name owns the cell of that name. */
  lemma {:induction false} OwnCell(local: Prices, chans: seq<Source>, k: Key, i: nat)
    requires Last(chans, i)
    ensures chans[i].name in Upstreams(local, chans, k)
    ensures Upstreams(local, chans, k)[chans[i].name] == Cell(LocalValue(local, k), Get(chans[i].data, k))
    ensures chans[i].name in Confidences(chans, k.model)
    ensures Confidences(chans, k.model)[chans[i].name] == !Distrusted(chans[i], k.model)
  {
    if i < |chans| - 1 {
      OwnCell(local, chans[..|chans| - 1], k, i);
    }
  }

  lemma {:induction false} LastOfName(chans: seq<Source>, i: nat) returns (j: nat)
    requires i < |chans|
    ensures Last(chans, j) && chans[j].name == chans[i].name
    decreases |chans| - i
  {
    if Last(chans, i) {
      j := i;
    } else {
      var later :| i < later < |chans| && chans[later].name == chans[i].name;
      j := LastOfName(chans, later);
    }
  }

  lemma {:induction false} SuppliedModelIsKnown(local: Prices, chans: seq<Source>, k: Key, i: nat)
    requires i < |chans| && Get(chans[i].data, k).Some? && k.field in FIELDS
    ensures k in AllKeys(local, chans)
  {
    if i == |chans| - 1 {
      assert k.model in ModelsOf(chans[i].data);
    } else {
      SuppliedModelIsKnown(local, chans[..|chans| - 1], k, i);
      assert k.model in AllModels(local, chans[..|chans| - 1]);
    }
  }

  lemma KeysHaveFields(local: Prices, chans: seq<Source>, k: Key)
    requires k in AllKeys(local, chans)
    ensures k.field in FIELDS
  {
  }

  /** An entry was included before pruning, and not all its cells say "same". */
  lemma EntryIsNotBlank(local: Prices, chans: seq<Source>, k: Key) returns (n: string)
    requires k in BuildDifferences(local, chans)
    ensures k in AllKeys(local, chans) && Included(local, chans, k)
    ensures n in Upstreams(local, chans, k) && Upstreams(local, chans, k)[n] != SAME
  {
    hide AllKeys, Included, Upstreams, Confidences, Differing;
    var item := BuildDifferences(local, chans)[k];
    n :| n in item.upstreams && item.upstreams[n] != SAME;
  }

  /** Soundness, for all inputs: an entry exists only where some channel supplies a differing value. */
  lemma EntriesAreDifferences(local: Prices, chans: seq<Source>, k: Key)
    requires k in BuildDifferences(local, chans)
    ensures k.field in FIELDS && SomeChannelDiffers(local, chans, k)
  {
    hide FIELDS, AllKeys, ValuesEqual, Get, Upstreams, BuildDifferences;
    var n := EntryIsNotBlank(local, chans, k);
    KeysHaveFields(local, chans, k);
    if LocalValue(local, k).Null? {
      ColumnsFacts(local, chans, k);
      var i :| 0 <= i < |chans| && chans[i].name == n && Upstreams(local, chans, k)[n] == Cell(LocalValue(local, k), Get(chans[i].data, k));
      assert Supplies(local, chans[i], k);
    }
  }

  /** A real difference is kept, with the exact value. */
  lemma RealDifferencesAreKept(local: Prices, chans: seq<Source>, k: Key, i: nat)
    requires Last(chans, i) && k.field in FIELDS
    requires Supplies(local, chans[i], k) && Real(Get(chans[i].data, k).value)
    ensures k in BuildDifferences(local, chans)
    ensures var item := BuildDifferences(local, chans)[k];
            && chans[i].name in item.upstreams && item.upstreams[chans[i].name] == Get(chans[i].data, k).value
            && item.current == LocalValue(local, k)
  {
    hide FIELDS, AllKeys, ValuesEqual, Get, Upstreams, Confidences;
    SuppliedModelIsKnown(local, chans, k, i);
    OwnCell(local, chans, k, i);
    var raw := Raw(local, chans, AllKeys(local, chans));
    assert k in raw;
    assert chans[i].name in Differing(raw);
    var item := Restrict(raw[k], Differing(raw));
    assert item.upstreams[chans[i].name] == Get(chans[i].data, k).value;
    assert !Empty(item);
  }

  lemma CellIsReal(localValue: Value, up: Option<Value>)
    ensures Real(Cell(localValue, up)) <==> up.Some? && !ValuesEqual(localValue, up.value) && Real(up.value)
  {
  }

  /** A name counts as differing exactly if the channel that owns it has a real difference somewhere. */
  lemma DiffersIff(local: Prices, chans: seq<Source>, i: nat)
    requires Last(chans, i)
    ensures chans[i].name in Differing(Raw(local, chans, AllKeys(local, chans))) <==> HasReal(local, chans[i])
  {
    hide FIELDS, AllKeys, ValuesEqual, Get, Upstreams, Confidences, Cell, LocalValue;
    var raw, n := Raw(local, chans, AllKeys(local, chans)), chans[i].name;
    if n in Differing(raw) {
      var k :| k in raw && n in raw[k].upstreams && Real(raw[k].upstreams[n]);
      KeysHaveFields(local, chans, k);
      OwnCell(local, chans, k, i);
      CellIsReal(LocalValue(local, k), Get(chans[i].data, k));
      assert Supplies(local, chans[i], k);
    }
    if HasReal(local, chans[i]) {
      var k: Key :| k.field in FIELDS && Supplies(local, chans[i], k) && Real(Get(chans[i].data, k).value);
      SuppliedModelIsKnown(local, chans, k, i);
      OwnCell(local, chans, k, i);
      CellIsReal(LocalValue(local, k), Get(chans[i].data, k));
      assert k in raw && n in raw[k].upstreams && Real(raw[k].upstreams[n]);
    }
  }

  /** An owner whose name survives pruning and whose cell does not say "same" keeps the entry alive. */
  ghost predicate KeepsEntry(local: Prices, chans: seq<Source>, k: Key, i: int) {
    Last(chans, i) && HasReal(local, chans[i]) && Cell(LocalValue(local, k), Get(chans[i].data, k)) != SAME
  }

  lemma EntryHasKeeper(local: Prices, chans: seq<Source>, k: Key) returns (i: nat)
    requires k in BuildDifferences(local, chans)
    ensures KeepsEntry(local, chans, k, i)
  {
    hide FIELDS, AllKeys, Get, Upstreams, Confidences, Cell, LocalValue, HasReal, Included, Supplies;
    var raw := Raw(local, chans, AllKeys(local, chans));
    var item := Restrict(raw[k], Differing(raw));
    var n :| n in item.upstreams && item.upstreams[n] != SAME;
    ColumnsFacts(local, chans, k);
    var j :| 0 <= j < |chans| && chans[j].name == n;
    i := LastOfName(chans, j);
    OwnCell(local, chans, k, i);
    DiffersIff(local, chans, i);
  }

  lemma KeeperKeepsEntry(local: Prices, chans: seq<Source>, k: Key, i: nat)
    requires k in AllKeys(local, chans) && Included(local, chans, k) && KeepsEntry(local, chans, k, i)
    ensures k in BuildDifferences(local, chans)
  {
    hide FIELDS, AllKeys, Get, Upstreams, Confidences, Cell, LocalValue, HasReal, Included, Supplies;
    var raw := Raw(local, chans, AllKeys(local, chans));
    OwnCell(local, chans, k, i);
    DiffersIff(local, chans, i);
    var item := Restrict(raw[k], Differing(raw));
    assert item.upstreams[chans[i].name] != SAME;
    assert !Empty(item);
  }

  lemma DifferenceIsIncluded(local: Prices, chans: seq<Source>, k: Key)
    requires k.field in FIELDS && SomeChannelDiffers(local, chans, k)
    ensures k in AllKeys(local, chans) && Included(local, chans, k)
  {
    hide FIELDS, AllKeys, Get, ValuesEqual;
    var i :| 0 <= i < |chans| && Supplies(local, chans[i], k);
    SuppliedModelIsKnown(local, chans, k, i);
  }

  /**
   Exactly when the result has an entry for a model and field, for all inputs: some channel supplies a differing value,
   and some channel that owns its name has a real difference anywhere and does not agree with the local value here.
   */
  lemma EntryIff(local: Prices, chans: seq<Source>, k: Key)
    ensures k in BuildDifferences(local, chans)
       <==> && k.field in FIELDS && SomeChannelDiffers(local, chans, k)
            && exists i :: KeepsEntry(local, chans, k, i)
  {
    hide FIELDS, BuildDifferences, SomeChannelDiffers, KeepsEntry, AllKeys, Included;
    if k in BuildDifferences(local, chans) {
      EntriesAreDifferences(local, chans, k);
      var i := EntryHasKeeper(local, chans, k);
    }
    if k.field in FIELDS && SomeChannelDiffers(local, chans, k) && exists i :: KeepsEntry(local, chans, k, i) {
      var i :| KeepsEntry(local, chans, k, i);
      DifferenceIsIncluded(local, chans, k);
      KeeperIsIndex(local, chans, k, i);
      KeeperKeepsEntry(local, chans, k, i);
    }
  }

  lemma KeeperIsIndex(local: Prices, chans: seq<Source>, k: Key, i: int)
    requires KeepsEntry(local, chans, k, i)
    ensures 0 <= i < |chans|
  {
  }

  /**
   For channels with distinct names that supply neither null nor "same": the result has an entry for a model and field
   if and only if some channel supplies a value that differs from the local one up to epsilon.
   */
  lemma ContainsIff(local: Prices, chans: seq<Source>, k: Key)
    requires DistinctNames(chans) && ProperValues(chans)
    ensures k in BuildDifferences(local, chans) <==> k.field in FIELDS && SomeChannelDiffers(local, chans, k)
  {
    EntryIff(local, chans, k);
    hide FIELDS, BuildDifferences, ValuesEqual, Get, LocalValue;
    if k.field in FIELDS && SomeChannelDiffers(local, chans, k) {
      var i :| 0 <= i < |chans| && Supplies(local, chans[i], k);
      assert Real(Get(chans[i].data, k).value);
      assert KeepsEntry(local, chans, k, i);
    }
  }

  /** Then pruning removes channels from entries, but never an entry. */
  lemma PruningKeepsEntries(local: Prices, chans: seq<Source>)
    requires DistinctNames(chans) && ProperValues(chans)
    ensures BuildDifferences(local, chans).Keys == Raw(local, chans, AllKeys(local, chans)).Keys
  {
    forall k | k in Raw(local, chans, AllKeys(local, chans)) ensures k in BuildDifferences(local, chans) {
      KeysHaveFields(local, chans, k);
      IncludedDiffers(local, chans, k);
      ContainsIff(local, chans, k);
    }
  }

  lemma IncludedDiffers(local: Prices, chans: seq<Source>, k: Key)
    requires ProperValues(chans) && Included(local, chans, k)
    ensures SomeChannelDiffers(local, chans, k)
  {
    hide Get;
    if LocalValue(local, k).Null? {
      var i :| 0 <= i < |chans| && Get(chans[i].data, k).Some?;
      assert Supplies(local, chans[i], k);
    }
  }

  /** For all inputs: a channel listed in any entry has a real difference in some entry, and the two columns list the same channels. */
  lemma ListedChannelsDiffer(local: Prices, chans: seq<Source>, k: Key, n: string)
    requires k in BuildDifferences(local, chans) && n in BuildDifferences(local, chans)[k].upstreams
    ensures exists k' :: k' in BuildDifferences(local, chans) && n in BuildDifferences(local, chans)[k'].upstreams
                         && Real(BuildDifferences(local, chans)[k'].upstreams[n])
  {
    hide FIELDS, AllKeys, Get, Upstreams, Confidences;
    var raw := Raw(local, chans, AllKeys(local, chans));
    assert n in Differing(raw);
    var k' :| k' in raw && n in raw[k'].upstreams && Real(raw[k'].upstreams[n]);
    assert Restrict(raw[k'], Differing(raw)).upstreams[n] == raw[k'].upstreams[n];
    assert k' in BuildDifferences(local, chans);
  }

  lemma ColumnsListTheSameChannels(local: Prices, chans: seq<Source>, k: Key)
    requires k in BuildDifferences(local, chans)
    ensures BuildDifferences(local, chans)[k].upstreams.Keys == BuildDifferences(local, chans)[k].confidence.Keys
  {
    hide FIELDS, AllKeys, Get, Upstreams, Confidences;
    ColumnsFacts(local, chans, k);
  }

  /** What an entry records under a name it lists: the value and the confidence of the channel that owns the name. */
  lemma EntryContents(local: Prices, chans: seq<Source>, k: Key, i: nat)
    requires Last(chans, i)
    requires k in BuildDifferences(local, chans) && chans[i].name in BuildDifferences(local, chans)[k].upstreams
    ensures var item := BuildDifferences(local, chans)[k];
            && item.current == LocalValue(local, k)
            && item.upstreams[chans[i].name] == Cell(LocalValue(local, k), Get(chans[i].data, k))
            && chans[i].name in item.confidence && (item.confidence[chans[i].name] <==> !Distrusted(chans[i], k.model))
  {
    hide FIELDS, AllKeys, Get, Upstreams, Confidences, Distrusted, Cell;
    OwnCell(local, chans, k, i);
  }

  /** Without a real difference the entry is lost: a channel whose only statement is a null differs, and yet leaves no entry. */
  lemma NullLeavesNoEntry(local: Prices, name: string, k: Key)
    requires k.field in FIELDS && !LocalValue(local, k).Null?
    ensures var chans := [Source(name, map[k.field := map[k.model := Null]])];
            SomeChannelDiffers(local, chans, k) && k !in BuildDifferences(local, chans)
  {
    hide FIELDS, AllKeys;
    var chans := [Source(name, map[k.field := map[k.model := Null]])];
    assert Supplies(local, chans[0], k);
    var raw := Raw(local, chans, AllKeys(local, chans));
    forall k', n | k' in raw && n in raw[k'].upstreams ensures !Real(raw[k'].upstreams[n]) {
      ColumnsFacts(local, chans, k');
    }
    assert Differing(raw) == {};
  }

  // ----- The report in numbers

  /** Numbers count as equal below a difference of 10^-9; everything else only if it is the same. */
  lemma ValuesEqualMeans(a: Value, b: Value)
    ensures ValuesEqual(a, b) <==> if a.Num? && b.Num? then -0.000000001 < a.n - b.n < 0.000000001 else a == b
  {
  }

  /** Integers count as numbers in the eight price fields, and in no other field is anything converted. */
  lemma GetMeans(field: string, model: string, v: Value)
    requires field in ["model_ratio", "completion_ratio", "cache_ratio", "create_cache_ratio", "image_ratio", "audio_ratio",
                       "audio_completion_ratio", "model_price", "billing_mode", "billing_expr"]
    ensures field in FIELDS
    ensures Get(map[field := map[model := v]], Key(model, field))
         == Some(if v.Int? && field !in ["billing_mode", "billing_expr"] then Num(v.i as real) else v)
  {
    assert FIELDS[..8] == ["model_ratio", "completion_ratio", "cache_ratio", "create_cache_ratio", "image_ratio", "audio_ratio",
                           "audio_completion_ratio", "model_price"];
  }

  function SinglePrice(field: string, model: string, v: Value): Prices {
    map[field := map[model := v]]
  }

  /** A number in a price field, as it was decoded. */
  function Decoded(integer: bool, i: int, x: real): Value {
    if integer then Int(i) else Num(x)
  }

  lemma OneChannelDiffersIff(field: string, model: string, v: Value, name: string, w: Value)
    requires field in FIELDS && Get(SinglePrice(field, model, w), Key(model, field)).Some?
    requires Real(Get(SinglePrice(field, model, w), Key(model, field)).value)
    ensures var k, local, chans := Key(model, field), SinglePrice(field, model, v), [Source(name, SinglePrice(field, model, w))];
            k in BuildDifferences(local, chans) <==> !ValuesEqual(LocalValue(local, k), Get(chans[0].data, k).value)
  {
    hide FIELDS, BuildDifferences, Get, ValuesEqual;
    var k, local, chans := Key(model, field), SinglePrice(field, model, v), [Source(name, SinglePrice(field, model, w))];
    EntryIff(local, chans, k);
    if Supplies(local, chans[0], k) {
      assert HasReal(local, chans[0]);
      assert KeepsEntry(local, chans, k, 0);
    }
  }

  /** One local price against one upstream price: reported exactly if they are at least 10^-9 apart, up or down. */
  lemma PriceDifferenceIff(field: string, model: string, name: string,
                           integer: bool, i: int, x: real, integer': bool, i': int, x': real)
    requires field in ["model_ratio", "completion_ratio", "cache_ratio", "create_cache_ratio", "image_ratio", "audio_ratio",
                       "audio_completion_ratio", "model_price"]
    ensures var here, there := if integer then i as real else x, if integer' then i' as real else x';
            var chans := [Source(name, SinglePrice(field, model, Decoded(integer', i', x')))];
            var d := BuildDifferences(SinglePrice(field, model, Decoded(integer, i, x)), chans);
            && (Key(model, field) in d <==> here - there >= 0.000000001 || there - here >= 0.000000001)
            && (Key(model, field) in d ==>
                  d[Key(model, field)].current == Num(here) && d[Key(model, field)].upstreams == map[name := Num(there)])
  {
    hide FIELDS, BuildDifferences, Get, ValuesEqual;
    var v, w := Decoded(integer, i, x), Decoded(integer', i', x');
    var k, local, chans := Key(model, field), SinglePrice(field, model, v), [Source(name, SinglePrice(field, model, w))];
    GetMeans(field, model, v);
    GetMeans(field, model, w);
    OneChannelDiffersIff(field, model, v, name, w);
    ValuesEqualMeans(LocalValue(local, k), Get(chans[0].data, k).value);
    if k in BuildDifferences(local, chans) {
      RealDifferencesAreKept(local, chans, k, 0);
      ListedNames(local, chans, k);
    }
  }

  /** Only channel names are listed. */
  lemma ListedNames(local: Prices, chans: seq<Source>, k: Key)
    requires k in BuildDifferences(local, chans)
    ensures forall n :: n in BuildDifferences(local, chans)[k].upstreams ==> exists i :: 0 <= i < |chans| && chans[i].name == n
  {
    hide FIELDS, AllKeys, Get, Upstreams, Confidences;
    ColumnsFacts(local, chans, k);
  }

  /** One local billing text against one upstream text: reported exactly if they differ and it is not the word "same". */
  lemma TextDifferenceIff(field: string, model: string, name: string, here: string, there: string)
    requires field in ["billing_mode", "billing_expr"]
    ensures var chans := [Source(name, SinglePrice(field, model, Text(there)))];
            Key(model, field) in BuildDifferences(SinglePrice(field, model, Text(here)), chans) <==> here != there && there != "same"
  {
    hide FIELDS, BuildDifferences, Get, ValuesEqual;
    var v, w := Text(here), Text(there);
    var k, local, chans := Key(model, field), SinglePrice(field, model, v), [Source(name, SinglePrice(field, model, w))];
    GetMeans(field, model, v);
    GetMeans(field, model, w);
    ValuesEqualMeans(v, w);
    if there != "same" {
      OneChannelDiffersIff(field, model, v, name, w);
    } else if k in BuildDifferences(local, chans) {
      var i := EntryHasKeeper(local, chans, k);
    }
  }

  /** What is recorded for a channel, by cases. */
  lemma CellMeans(localValue: Value, up: Option<Value>)
    ensures up.None? && localValue == Null ==> Cell(localValue, up) == Text("same")
    ensures up.None? && localValue != Null ==> Cell(localValue, up) == Null
    ensures up.Some? && localValue == up.value ==> Cell(localValue, up) == Text("same")
    ensures up.Some? && localValue != up.value && !(localValue.Num? && up.value.Num?) ==> Cell(localValue, up) == up.value
    ensures up.Some? && localValue.Num? && up.value.Num? ==>
              Cell(localValue, up) == if -0.000000001 < localValue.n - up.value.n < 0.000000001 then Text("same") else up.value
  {
  }

  /** A channel's prices for a model are distrusted exactly if its two ratios are the numbers 37.5 and 1, up to 10^-9. */
  lemma DistrustedMeans(ch: Source, model: string)
    ensures Distrusted(ch, model)
       <==> && "model_ratio" in ch.data && model in ch.data["model_ratio"]
            && "completion_ratio" in ch.data && model in ch.data["completion_ratio"]
            && IsNear(ch.data["model_ratio"][model], 37.5) && IsNear(ch.data["completion_ratio"][model], 1.0)
  {
  }

  predicate IsNear(v: Value, x: real) {
    match v
    case Num(n) => -0.000000001 < n - x < 0.000000001
    case Int(i) => -0.000000001 < i as real - x < 0.000000001
    case _ => false
  }

  // ----- The loops

  method CollectModels(d: Prices) returns (models: set<string>)
    ensures models == ModelsOf(d)
  {
    hide FIELDS;
    models := {};
    for i := 0 to |FIELDS|
      invariant models == set f, m | f in FIELDS[..i] && f in d && m in d[f] :: m
    {
      assert FIELDS[..i + 1] == FIELDS[..i] + [FIELDS[i]];
      if FIELDS[i] in d {
        models := models + d[FIELDS[i]].Keys;
      }
    }
    assert FIELDS[..|FIELDS|] == FIELDS;
  }

  method CollectAllModels(local: Prices, chans: seq<Source>) returns (models: set<string>)
    ensures models == AllModels(local, chans)
  {
    hide ModelsOf;
    models := CollectModels(local);
    for i := 0 to |chans|
      invariant models == AllModels(local, chans[..i])
    {
      assert chans[..i + 1][..i] == chans[..i];
      var more := CollectModels(chans[i].data);
      models := models + more;
    }
    assert chans[..|chans|] == chans;
  }

  /** The inner loop over the channels, for one model and field. */
  method BuildEntry(local: Prices, chans: seq<Source>, k: Key) returns (shouldInclude: bool, item: Item)
    ensures shouldInclude == Included(local, chans, k) && item == ItemOf(local, chans, k)
  {
    hide FIELDS, Get, ValuesEqual, Distrusted, Upstreams, Confidences, Cell, LocalValue;
    ColumnsStartEmpty(local, k);
    assert chans[..0] == [];
    var localValue := LocalValue(local, k);
    var upstreams: map<string, Value>, confidence: map<string, bool> := map[], map[];
    var hasUpstreamValue, hasDifference := false, false;
    for i := 0 to |chans|
      invariant upstreams == Upstreams(local, chans[..i], k)
      invariant confidence == Confidences(chans[..i], k.model)
      invariant hasUpstreamValue <==> exists j :: 0 <= j < i && Get(chans[j].data, k).Some?
      invariant !localValue.Null? ==> (hasDifference <==> exists j :: 0 <= j < i && Supplies(local, chans[j], k))
    {
      ColumnsGrow(local, chans, k, i);
      var ch := chans[i];
      var up := Get(ch.data, k);
      var upstreamValue, differs := CompareCell(localValue, up);
      if up.Some? {
        hasUpstreamValue := true;
        assert Get(chans[i].data, k).Some?;
      }
      if differs {
        hasDifference := true;
      }
      assert !localValue.Null? ==> (differs <==> Supplies(local, chans[i], k));
      upstreams := upstreams[ch.name := upstreamValue];
      confidence := confidence[ch.name := !Distrusted(ch, k.model)];
    }
    assert chans[..|chans|] == chans;
    shouldInclude := if localValue.Null? then hasUpstreamValue else hasDifference;
    item := Item(localValue, upstreams, confidence);
  }

  /** One round of the inner loop: the channel's cell, and whether it counts as a difference. */
  method CompareCell(localValue: Value, up: Option<Value>) returns (upstreamValue: Value, differs: bool)
    ensures upstreamValue == Cell(localValue, up)
    ensures !localValue.Null? ==> (differs <==> up.Some? && !ValuesEqual(localValue, up.value))
  {
    upstreamValue, differs := Null, false;
    if up.Some? {
      upstreamValue := up.value;
      if !localValue.Null? && !ValuesEqual(localValue, upstreamValue) {
        differs := true;
      } else if ValuesEqual(localValue, upstreamValue) {
        upstreamValue := SAME;
      }
    }
    if upstreamValue.Null? && localValue.Null? {
      upstreamValue := SAME;
    }
    if localValue.Null? && Real(upstreamValue) {
      differs := true;
    }
  }

  lemma ColumnsStartEmpty(local: Prices, k: Key)
    ensures Upstreams(local, [], k) == map[] && Confidences([], k.model) == map[]
  {
  }

  lemma ColumnsGrow(local: Prices, chans: seq<Source>, k: Key, i: nat)
    requires i < |chans|
    ensures Upstreams(local, chans[..i + 1], k)
         == Upstreams(local, chans[..i], k)[chans[i].name := Cell(LocalValue(local, k), Get(chans[i].data, k))]
    ensures Confidences(chans[..i + 1], k.model)
         == Confidences(chans[..i], k.model)[chans[i].name := !Distrusted(chans[i], k.model)]
  {
    assert chans[..i + 1][..i] == chans[..i];
  }

  lemma RawStartsEmpty(local: Prices, chans: seq<Source>)
    ensures Raw(local, chans, {}) == map[]
  {
  }

  lemma RawGrows(local: Prices, chans: seq<Source>, done: set<Key>, k: Key)
    ensures Raw(local, chans, done + {k})
         == if Included(local, chans, k) then Raw(local, chans, done)[k := ItemOf(local, chans, k)] else Raw(local, chans, done)
  {
  }

  /** The loop over the models. */
  method BuildRaw(local: Prices, chans: seq<Source>, models: set<string>) returns (d: Differences)
    ensures d == Raw(local, chans, KeysOf(models))
  {
    hide FIELDS, Raw, Included, ItemOf;
    d := map[];
    var todo := models;
    ghost var done: set<Key> := {};
    RawStartsEmpty(local, chans);
    while todo != {}
      invariant todo <= models && d == Raw(local, chans, done)
      invariant done == KeysOf(models - todo)
      decreases |todo|
    {
      var model :| model in todo;
      d := AddFields(local, chans, model, d, done);
      done := done + KeysOf({model});
      todo := todo - {model};
    }
    assert models - todo == models;
  }

  /** The loop over the fields of a model. */
  method AddFields(local: Prices, chans: seq<Source>, model: string, before: Differences, ghost done: set<Key>)
    returns (d: Differences)
    requires before == Raw(local, chans, done)
    ensures d == Raw(local, chans, done + KeysOf({model}))
  {
    hide FIELDS, Included, ItemOf, Raw;
    d := before;
    ghost var keys: set<Key> := {};
    assert done + keys == done;
    for i := 0 to |FIELDS|
      invariant d == Raw(local, chans, done + keys)
      invariant keys == set f | f in FIELDS[..i] :: Key(model, f)
    {
      assert FIELDS[..i + 1] == FIELDS[..i] + [FIELDS[i]];
      var k := Key(model, FIELDS[i]);
      var shouldInclude, item := BuildEntry(local, chans, k);
      RawGrows(local, chans, done + keys, k);
      assert (done + keys) + {k} == done + (keys + {k});
      keys := keys + {k};
      if shouldInclude {
        d := d[k := item];
      }
    }
    assert FIELDS[..|FIELDS|] == FIELDS && keys == KeysOf({model});
  }

  /** The loop that finds the channels with a real difference. */
  method FindDiffering(d: Differences) returns (names: set<string>)
    ensures names == Differing(d)
  {
    names := {};
    var todo := d.Keys;
    while todo != {}
      invariant todo <= d.Keys
      invariant names == set k, n | k in d.Keys - todo && n in d[k].upstreams && Real(d[k].upstreams[n]) :: n
      decreases |todo|
    {
      var k :| k in todo;
      names := names + set n | n in d[k].upstreams && Real(d[k].upstreams[n]);
      todo := todo - {k};
    }
  }

  /** The pruning loop: it changes the map it walks over. */
  method Prune(d: Differences, names: set<string>) returns (r: Differences)
    ensures r == Pruned(d, names)
  {
    r := d;
    var todo := d.Keys;
    while todo != {}
      invariant todo <= r.Keys <= d.Keys
      invariant forall k :: k in todo ==> r[k] == d[k]
      invariant forall k :: k in d && k !in todo ==>
                  (k in r <==> !Empty(Restrict(d[k], names))) && (k in r ==> r[k] == Restrict(d[k], names))
      decreases |todo|
    {
      var k :| k in todo;
      var item := Restrict(r[k], names);
      r := if Empty(item) then r - {k} else r[k := item];
      todo := todo - {k};
    }
  }

  /** `buildDifferences`, phase by phase. */
  method ComputeDifferences(local: Prices, chans: seq<Source>) returns (d: Differences)
    ensures d == BuildDifferences(local, chans)
  {
    var models := CollectAllModels(local, chans);
    var raw := BuildRaw(local, chans, models);
    var names := FindDiffering(raw);
    d := Prune(raw, names);
  }
}
