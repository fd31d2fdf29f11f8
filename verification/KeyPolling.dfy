/** Choosing a key in polling mode: a cursor walks over the enabled keys round and round. */
module KeyPolling {
  import opened Prelude
  import opened MultiKey

  /** The first enabled index from `i` on, or the number of keys. */
  function FirstFrom(recs: seq<Record>, i: nat): (f: nat)
    requires i <= |recs|
    ensures i <= f <= |recs| && (f < |recs| ==> IsEnabled(recs, f))
    ensures forall j :: i <= j < f ==> !IsEnabled(recs, j)
    decreases |recs| - i
  {
    if i == |recs| || IsEnabled(recs, i) then i else FirstFrom(recs, i + 1)
  }

  /** A cursor out of range starts over. */
  function Start(recs: seq<Record>, cursor: int): nat {
    if 0 <= cursor < |recs| then cursor else 0
  }

  /** The next enabled index at or after the cursor, wrapping around once. */
  function Chosen(recs: seq<Record>, cursor: int): nat {
    var f := FirstFrom(recs, Start(recs, cursor));
    if f < |recs| then f else FirstFrom(recs, 0)
  }

  function NextCursor(recs: seq<Record>, cursor: int): nat {
    if Chosen(recs, cursor) + 1 < |recs| then Chosen(recs, cursor) + 1 else 0
  }

  /** `GetNextEnabledKey` in polling mode; it fails exactly when no key is enabled. */
  method GetNextEnabledKey(recs: seq<Record>, cursor: int) returns (index: Option<nat>, next: int)
    ensures index.Some? <==> SomeEnabled(recs)
    ensures index.Some? ==> index.value == Chosen(recs, cursor) && next == NextCursor(recs, cursor)
    ensures index.None? ==> next == cursor
  {
    next := cursor;
    var enabledCount := 0;
    for i := 0 to |recs|
      invariant 0 <= enabledCount && (enabledCount > 0 <==> exists j :: 0 <= j < i && IsEnabled(recs, j))
    {
      if recs[i].status == STATUS_ENABLED {
        assert IsEnabled(recs, i);
        enabledCount := enabledCount + 1;
      }
    }
    if enabledCount == 0 {
      return None, cursor;
    }
    var start, n := Start(recs, cursor), |recs|;
    var i := 0;
    while i < n && recs[(start + i) % n].status != STATUS_ENABLED
      invariant 0 <= i <= n
      invariant forall j :: start <= j < n && j < start + i ==> !IsEnabled(recs, j)
      invariant forall j :: 0 <= j < start + i - n ==> !IsEnabled(recs, j)
    {
      WrapOnce(start, i, n);
      i := i + 1;
    }
    assert i < n;
    WrapOnce(start, i, n);
    var idx := (start + i) % n;
    assert IsEnabled(recs, idx);
    FoundIsChosen(recs, cursor, i, idx);
    WrapOnce(idx, 1, n);
    index, next := Some(idx), (idx + 1) % n;
  }

  lemma WrapOnce(a: nat, b: nat, n: nat)
    requires a < n && b <= n
    ensures (a + b) % n == if a + b < n then a + b else a + b - n
  {
  }

  lemma FoundIsChosen(recs: seq<Record>, cursor: int, i: nat, idx: nat)
    requires i < |recs| && IsEnabled(recs, idx)
    requires var s, n := Start(recs, cursor), |recs|;
             && idx == (if s + i < n then s + i else s + i - n)
             && (forall j :: s <= j < n && j < s + i ==> !IsEnabled(recs, j))
             && (forall j :: 0 <= j < s + i - n ==> !IsEnabled(recs, j))
    ensures idx == Chosen(recs, cursor)
  {
  }

  /**
   The choice is the first enabled key from the cursor on, or from the start if there is none, a cursor out of range
   counting as the start; the cursor then stands behind it, going round at the end.
   */
  lemma ChosenIsNextEnabled(recs: seq<Record>, cursor: int)
    requires SomeEnabled(recs)
    ensures var i, start := Chosen(recs, cursor), if 0 <= cursor < |recs| then cursor else 0;
            && i < |recs| && recs[i].status == 1
            && (i >= start ==> forall j :: start <= j < i ==> recs[j].status != 1)
            && (i < start ==> forall j :: (start <= j < |recs| || 0 <= j < i) ==> recs[j].status != 1)
            && NextCursor(recs, cursor) == if i == |recs| - 1 then 0 else i + 1
  {
    var k :| IsEnabled(recs, k);
    var start := Start(recs, cursor);
    assert forall j :: 0 <= j < |recs| && recs[j].status == 1 ==> IsEnabled(recs, j);
  }

  // ----- Fairness

  /** How many enabled keys come before an index. */
  function Rank(recs: seq<Record>, i: nat): nat
    requires i <= |recs|
  {
    if i == 0 then 0 else Rank(recs, i - 1) + if IsEnabled(recs, i - 1) then 1 else 0
  }

  function EnabledCount(recs: seq<Record>): nat {
    Rank(recs, |recs|)
  }

  lemma {:induction false} RankGrows(recs: seq<Record>, i: nat, j: nat)
    requires i <= j <= |recs|
    ensures Rank(recs, i) <= Rank(recs, j)
    ensures (exists k :: i <= k < j && IsEnabled(recs, k)) <==> Rank(recs, i) < Rank(recs, j)
    decreases j
  {
    if i < j {
      RankGrows(recs, i, j - 1);
      assert IsEnabled(recs, j - 1) ==> i <= j - 1 < j;
    }
  }

  /** Enabled keys are told apart by their rank. */
  lemma RankIsInjective(recs: seq<Record>, i: nat, j: nat)
    requires IsEnabled(recs, i) && IsEnabled(recs, j) && Rank(recs, i) == Rank(recs, j)
    ensures i == j
  {
    if i < j {
      RankGrows(recs, i, j);
    } else if j < i {
      RankGrows(recs, j, i);
    }
  }

  function Wrap(r: nat, k: nat): nat {
    if r < k then r else r - k
  }

  /** A call returns the enabled key of the cursor's rank, and leaves the cursor at the rank after it. */
  lemma CallAdvancesRank(recs: seq<Record>, cursor: int)
    requires SomeEnabled(recs)
    ensures var k, r, c := EnabledCount(recs), Rank(recs, Start(recs, cursor)), Chosen(recs, cursor);
            && k > 0 && IsEnabled(recs, c) && Rank(recs, c) == Wrap(r, k)
            && NextCursor(recs, cursor) < |recs|
            && Wrap(Rank(recs, NextCursor(recs, cursor)), k) == Wrap(Wrap(r, k) + 1, k)
  {
    var n, s, c := |recs|, Start(recs, cursor), Chosen(recs, cursor);
    var e :| IsEnabled(recs, e);
    RankGrows(recs, 0, n);
    RankGrows(recs, s, n);
    RankGrows(recs, s, FirstFrom(recs, s));
    RankGrows(recs, 0, FirstFrom(recs, 0));
    RankGrows(recs, 0, c);
    RankGrows(recs, c, n);
  }

  /** The index returned by the call after `t` others, and the cursor it starts from. */
  function CursorAfter(recs: seq<Record>, cursor: int, t: nat): int {
    if t == 0 then cursor else NextCursor(recs, CursorAfter(recs, cursor, t - 1))
  }

  function IndexAt(recs: seq<Record>, cursor: int, t: nat): nat {
    Chosen(recs, CursorAfter(recs, cursor, t))
  }

  lemma {:induction false} RanksRotate(recs: seq<Record>, cursor: int, t: nat)
    requires SomeEnabled(recs) && t < EnabledCount(recs)
    ensures var k, r := EnabledCount(recs), Rank(recs, Start(recs, cursor));
            && r <= k && IsEnabled(recs, IndexAt(recs, cursor, t))
            && Rank(recs, IndexAt(recs, cursor, t)) == Wrap(Wrap(r, k) + t, k)
            && Wrap(Rank(recs, Start(recs, CursorAfter(recs, cursor, t))), k) == Wrap(Wrap(r, k) + t, k)
  {
    hide Chosen, NextCursor, Rank, EnabledCount;
    RankOfStart(recs, cursor);
    CallAdvancesRank(recs, CursorAfter(recs, cursor, t));
    if t > 0 {
      RanksRotate(recs, cursor, t - 1);
      CallAdvancesRank(recs, CursorAfter(recs, cursor, t - 1));
    }
  }

  lemma RankOfStart(recs: seq<Record>, cursor: int)
    requires recs != [] || cursor == 0
    ensures Rank(recs, Start(recs, cursor)) <= EnabledCount(recs)
  {
    RankGrows(recs, Start(recs, cursor), |recs|);
  }

  lemma EnabledRankIsSmall(recs: seq<Record>, e: nat)
    requires IsEnabled(recs, e)
    ensures Rank(recs, e) < EnabledCount(recs)
  {
    RankGrows(recs, e, |recs|);
  }

  /**
   Polling is fair: whatever the cursor, as many consecutive calls as there are enabled keys return each enabled key
   exactly once.
   */
  lemma EachEnabledKeyOnce(recs: seq<Record>, cursor: int, e: nat) returns (t: nat)
    requires IsEnabled(recs, e)
    ensures t < EnabledCount(recs) && IndexAt(recs, cursor, t) == e
    ensures forall u :: 0 <= u < EnabledCount(recs) && IndexAt(recs, cursor, u) == e ==> u == t
  {
    hide Rank, IndexAt, EnabledCount;
    EnabledRankIsSmall(recs, e);
    var k, r := EnabledCount(recs), Wrap(Rank(recs, Start(recs, cursor)), EnabledCount(recs));
    RankOfStart(recs, cursor);
    var j := Rank(recs, e);
    t := if j >= r then j - r else j + k - r;
    RanksRotate(recs, cursor, t);
    RankIsInjective(recs, e, IndexAt(recs, cursor, t));
    forall u | 0 <= u < k && IndexAt(recs, cursor, u) == e ensures u == t {
      RanksRotate(recs, cursor, u);
    }
  }
}
