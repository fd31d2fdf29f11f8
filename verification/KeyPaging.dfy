/** The read-only case of key management: the filtered, paged status list and its three counters. */
module KeyPaging {
  import opened Prelude
  import opened MultiKey

  const DEFAULT_PAGE_SIZE := 50
  const MAX_PAGE_SIZE := 100

  datatype KeyStatus = KeyStatus(index: int, status: int, disabledTime: int, reason: string)

  datatype Response = Response(
    keys: seq<KeyStatus>, total: int, page: int, pageSize: int, totalPages: int,
    enabledCount: int, manualDisabledCount: int, autoDisabledCount: int)

  /** What is shown of one key; time and reason only while it is disabled. */
  function Shown(recs: seq<Record>, i: int): KeyStatus
    requires 0 <= i < |recs|
  {
    var r := recs[i];
    if r.status == STATUS_ENABLED then KeyStatus(i, r.status, 0, "")
    else KeyStatus(i, r.status, if r.time.Some? then r.time.value else 0, if r.reason.Some? then r.reason.value else "")
  }

  function ShowAll(recs: seq<Record>): seq<KeyStatus> {
    seq(|recs|, i requires 0 <= i < |recs| => Shown(recs, i))
  }

  predicate Wanted(filter: Option<int>, k: KeyStatus) {
    filter.Some? ==> k.status == filter.value
  }

  function Filtered(xs: seq<KeyStatus>, filter: Option<int>): seq<KeyStatus> {
    if xs == [] then []
    else
      var rest, x := Filtered(xs[..|xs| - 1], filter), xs[|xs| - 1];
      if Wanted(filter, x) then rest + [x] else rest
  }

  function Count(xs: seq<KeyStatus>, status: int): nat {
    if xs == [] then 0 else Count(xs[..|xs| - 1], status) + if xs[|xs| - 1].status == status then 1 else 0
  }

  function PageSize(requested: int): (n: nat)
    ensures 1 <= n <= MAX_PAGE_SIZE
  {
    if requested <= 0 then DEFAULT_PAGE_SIZE else if requested > MAX_PAGE_SIZE then MAX_PAGE_SIZE else requested
  }

  function TotalPages(total: nat, pageSize: nat): (n: nat)
    requires pageSize >= 1
    ensures n >= 1
  {
    var n := (total + pageSize - 1) / pageSize;
    if n == 0 then 1 else n
  }

  function Min(a: int, b: int): int {
    if a < b then a else b
  }

  /** The page number a request is served under: below one means the first page, beyond the last the last. */
  function Served(page: int, totalPages: int): int {
    Min(if page <= 0 then 1 else page, totalPages)
  }

  /** The stretch of the list that a request gets. */
  function Page<T>(xs: seq<T>, page: int, pageSize: nat): seq<T>
    requires pageSize >= 1
  {
    var p := Served(page, TotalPages(|xs|, pageSize));
    var start := (p - 1) * pageSize;
    if 0 <= start < |xs| then xs[start..Min(start + pageSize, |xs|)] else []
  }

  /** `get_key_status`. */
  method GetKeyStatus(recs: seq<Record>, page: int, requestedSize: int, filter: Option<int>) returns (r: Response)
    ensures var all := ShowAll(recs);
            var pageSize := PageSize(requestedSize);
            && r.keys == Page(Filtered(all, filter), page, pageSize)
            && r.total == |Filtered(all, filter)|
            && r.pageSize == pageSize && r.totalPages == TotalPages(r.total, pageSize)
            && r.page == Served(page, r.totalPages)
            && r.enabledCount == Count(all, STATUS_ENABLED)
            && r.manualDisabledCount == Count(all, STATUS_MANUALLY_DISABLED)
            && r.autoDisabledCount == Count(all, STATUS_AUTO_DISABLED)
  {
    hide Filtered, Count, ShowAll, Shown, Page, TotalPages;
    var pageSize := PageSize(requestedSize);
    var all, enabled, manual, auto := BuildStatuses(recs);
    var filtered := FilterStatuses(all, filter);
    var keys, p, totalPages := Paginate(filtered, page, pageSize);
    r := Response(keys, |filtered|, p, pageSize, totalPages, enabled, manual, auto);
  }

  /** The stretch of the filtered list a request gets, with the page number it is served under. */
  method Paginate<T>(xs: seq<T>, page: int, pageSize: nat) returns (keys: seq<T>, p: int, totalPages: int)
    requires pageSize >= 1
    ensures keys == Page(xs, page, pageSize) && totalPages == TotalPages(|xs|, pageSize)
    ensures p == Served(page, totalPages)
  {
    p, totalPages := if page <= 0 then 1 else page, (|xs| + pageSize - 1) / pageSize;
    if totalPages == 0 {
      totalPages := 1;
    }
    assert totalPages == TotalPages(|xs|, pageSize);
    hide TotalPages;
    if p > totalPages {
      p := totalPages;
    }
    var start := (p - 1) * pageSize;
    var end := start + pageSize;
    if end > |xs| {
      end := |xs|;
    }
    keys := [];
    MulIsMonotone(0, p - 1, pageSize);
    if start < |xs| {
      keys := xs[start..end];
    }
  }

  /** The first loop: every key's status, and the counters over all keys. */
  method BuildStatuses(recs: seq<Record>) returns (all: seq<KeyStatus>, enabled: int, manual: int, auto: int)
    ensures all == ShowAll(recs)
    ensures enabled == Count(all, STATUS_ENABLED)
    ensures manual == Count(all, STATUS_MANUALLY_DISABLED)
    ensures auto == Count(all, STATUS_AUTO_DISABLED)
  {
    all, enabled, manual, auto := [], 0, 0, 0;
    for i := 0 to |recs|
      invariant all == ShowAll(recs)[..i]
      invariant enabled == Count(all, STATUS_ENABLED)
      invariant manual == Count(all, STATUS_MANUALLY_DISABLED)
      invariant auto == Count(all, STATUS_AUTO_DISABLED)
    {
      var status := recs[i].status;
      if status == STATUS_ENABLED {
        enabled := enabled + 1;
      } else if status == STATUS_MANUALLY_DISABLED {
        manual := manual + 1;
      } else if status == STATUS_AUTO_DISABLED {
        auto := auto + 1;
      }
      assert (all + [Shown(recs, i)])[..i] == all;
      all := all + [Shown(recs, i)];
    }
  }

  /** The second loop. */
  method FilterStatuses(all: seq<KeyStatus>, filter: Option<int>) returns (filtered: seq<KeyStatus>)
    ensures filtered == Filtered(all, filter)
  {
    filtered := [];
    for i := 0 to |all|
      invariant filtered == Filtered(all[..i], filter)
    {
      assert all[..i + 1][..i] == all[..i];
      if filter.None? || all[i].status == filter.value {
        filtered := filtered + [all[i]];
      }
    }
    assert all[..|all|] == all;
  }

  lemma MulIsMonotone(a: int, b: int, n: nat)
    requires a <= b
    ensures a * n <= b * n
  {
  }

  // ----- Pages partition the filtered list

  /** The pages cover the list, and no page before the last reaches its end. */
  lemma TotalPagesFacts(total: nat, pageSize: nat)
    requires pageSize >= 1
    ensures var n := TotalPages(total, pageSize);
            total <= n * pageSize && ((n - 1) * pageSize < total || (n == 1 && total == 0))
  {
    var q := (total + pageSize - 1) / pageSize;
    assert total + pageSize - 1 == q * pageSize + (total + pageSize - 1) % pageSize;
    assert (q - 1) * pageSize == q * pageSize - pageSize;
  }

  function Pages<T>(xs: seq<T>, n: nat, pageSize: nat): seq<T>
    requires pageSize >= 1
  {
    if n == 0 then [] else Pages(xs, n - 1, pageSize) + Page(xs, n, pageSize)
  }

  /** Within range, page `n` is the next stretch of the list. */
  lemma PageIsNextStretch<T>(xs: seq<T>, n: nat, pageSize: nat)
    requires pageSize >= 1 && 1 <= n <= TotalPages(|xs|, pageSize) && xs != []
    ensures var start := (n - 1) * pageSize;
            0 <= start < |xs| && Page(xs, n, pageSize) == xs[start..Min(start + pageSize, |xs|)]
  {
    var last := TotalPages(|xs|, pageSize);
    TotalPagesFacts(|xs|, pageSize);
    hide TotalPages;
    MulIsMonotone(n - 1, last - 1, pageSize);
    MulIsMonotone(0, n - 1, pageSize);
  }

  lemma {:induction false} PagesArePrefix<T>(xs: seq<T>, n: nat, pageSize: nat)
    requires pageSize >= 1 && n <= TotalPages(|xs|, pageSize) && xs != []
    ensures n * pageSize >= 0 && Pages(xs, n, pageSize) == xs[..Min(n * pageSize, |xs|)]
  {
    hide TotalPages, Page;
    if n > 0 {
      PagesArePrefix(xs, n - 1, pageSize);
      PageIsNextStretch(xs, n, pageSize);
      assert n * pageSize == (n - 1) * pageSize + pageSize;
    }
  }

  /** Concatenating the pages from the first to the last gives exactly the filtered list, for any page size. */
  lemma PagesPartition<T>(xs: seq<T>, pageSize: nat)
    requires pageSize >= 1
    ensures Pages(xs, TotalPages(|xs|, pageSize), pageSize) == xs
  {
    if xs != [] {
      PagesArePrefix(xs, TotalPages(|xs|, pageSize), pageSize);
      TotalPagesFacts(|xs|, pageSize);
      assert xs[..|xs|] == xs;
    } else {
      assert TotalPages(0, pageSize) == 1 && Pages(xs, 1, pageSize) == Pages(xs, 0, pageSize) + [];
    }
  }

  /** Every page but an empty only one is non-empty, and none is longer than the page size. */
  lemma PagesAreFull<T>(xs: seq<T>, page: int, pageSize: nat)
    requires pageSize >= 1
    ensures |Page(xs, page, pageSize)| <= pageSize
    ensures xs != [] ==> Page(xs, page, pageSize) != []
  {
    hide TotalPages;
    if xs != [] {
      PageIsNextStretch(xs, Served(page, TotalPages(|xs|, pageSize)), pageSize);
    }
  }

  /** The three counters add up to the number of keys if and only if every status is one of the three. */
  lemma {:induction false} CountersAddUpIff(xs: seq<KeyStatus>)
    ensures var sum := Count(xs, STATUS_ENABLED) + Count(xs, STATUS_MANUALLY_DISABLED) + Count(xs, STATUS_AUTO_DISABLED);
            sum <= |xs| && (sum == |xs| <==> forall i :: 0 <= i < |xs| ==> 1 <= xs[i].status <= 3)
  {
    if xs != [] {
      CountersAddUpIff(xs[..|xs| - 1]);
    }
  }

  /** Filtering by a status keeps as many keys as its counter says. */
  lemma {:induction false} FilterAgreesWithCount(xs: seq<KeyStatus>, status: int)
    ensures |Filtered(xs, Some(status))| == Count(xs, status) && Filtered(xs, None) == xs
  {
    if xs != [] {
      FilterAgreesWithCount(xs[..|xs| - 1], status);
      assert xs == xs[..|xs| - 1] + [xs[|xs| - 1]];
    }
  }
  /** What a row of the status list shows: its index and status, and time and reason only of a key that is not enabled. */
  lemma ShownMeans(recs: seq<Record>, i: nat)
    requires i < |recs|
    ensures var row := ShowAll(recs)[i];
            && |ShowAll(recs)| == |recs| && row.index == i && row.status == recs[i].status
            && (recs[i].status == 1 ==> row.disabledTime == 0 && row.reason == "")
            && (recs[i].status != 1 && recs[i].time.Some? ==> row.disabledTime == recs[i].time.value)
            && (recs[i].status != 1 && recs[i].time.None? ==> row.disabledTime == 0)
            && (recs[i].status != 1 && recs[i].reason.Some? ==> row.reason == recs[i].reason.value)
            && (recs[i].status != 1 && recs[i].reason.None? ==> row.reason == "")
  {
  }

  ghost predicate ByIndex(xs: seq<KeyStatus>) {
    forall i, j :: 0 <= i < j < |xs| ==> xs[i].index < xs[j].index
  }

  /** Filtering keeps exactly the rows with the status, in their order. */
  lemma {:induction false} FilteredMeans(xs: seq<KeyStatus>, status: int)
    requires ByIndex(xs)
    ensures ByIndex(Filtered(xs, Some(status)))
    ensures forall x :: x in Filtered(xs, Some(status)) <==> x in xs && x.status == status
  {
    if xs != [] {
      var front, x := xs[..|xs| - 1], xs[|xs| - 1];
      FilteredMeans(front, status);
      assert xs == front + [x];
      assert forall y :: y in front ==> y.index < x.index;
    }
  }

  /** The filtered status list of a channel holds exactly the keys with the status, by index. */
  lemma FilteredRows(recs: seq<Record>, status: int)
    ensures var rows := Filtered(ShowAll(recs), Some(status));
            && ByIndex(rows)
            && (forall i :: 0 <= i < |recs| ==> (ShowAll(recs)[i] in rows <==> recs[i].status == status))
            && (forall row :: row in rows ==> 0 <= row.index < |recs| && row == ShowAll(recs)[row.index])
  {
    FilteredMeans(ShowAll(recs), status);
  }

  /** The page size is 50 if none was asked for and never above 100, and a page number beyond the pages is moved to the nearest. */
  lemma PagingMeans(requested: int, page: int, totalPages: int)
    requires totalPages >= 1
    ensures PageSize(requested) == if requested <= 0 then 50 else if requested >= 100 then 100 else requested
    ensures 1 <= Served(page, totalPages) <= totalPages
    ensures 1 <= page <= totalPages ==> Served(page, totalPages) == page
    ensures page < 1 ==> Served(page, totalPages) == 1
    ensures page > totalPages ==> Served(page, totalPages) == totalPages
  {
  }
}
