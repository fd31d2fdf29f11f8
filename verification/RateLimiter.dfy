/**
 The in-memory sliding-window rate limiter: one bounded queue of timestamps per key, and a cleanup that may run
 between any two requests.  The run theorems compare it with the unbounded log of accepted requests.
 */
module RateLimiter {

  datatype Entry = Entry(timestamps: seq<int>, duration: int)

  type Store = map<string, Entry>

  // ----- One step

  predicate Expired(e: Entry, now: int) {
    |e.timestamps| == 0 || now - e.timestamps[|e.timestamps| - 1] >= e.duration
  }

  function Evict(s: Store, now: int): Store {
    map key | key in s && !Expired(s[key], now) :: s[key]
  }

  /** Every stored queue has a head. */
  ghost predicate NonEmpty(s: Store) {
    forall key :: key in s ==> |s[key].timestamps| > 0
  }

  predicate Admits(s: Store, key: string, max: int, duration: int, now: int)
    requires key in s ==> |s[key].timestamps| > 0
  {
    key in s ==> |s[key].timestamps| < max || now - s[key].timestamps[0] >= duration
  }

  function Queue(s: Store, key: string): seq<int> {
    if key in s then s[key].timestamps else []
  }

  /** The queue after a request: appended to while short, else shifted if its head has aged, else unchanged. */
  function Requested(s: Store, key: string, max: int, duration: int, now: int): Store
    requires key in s ==> |s[key].timestamps| > 0
  {
    var q := Queue(s, key);
    var next :=
      if !Admits(s, key, max, duration, now) then q
      else if key in s && |q| >= max then q[1..] + [now]
      else q + [now];
    s[key := Entry(next, duration)]
  }

  class InMemoryRateLimiter {
    var store: Store

    ghost predicate Valid()
      reads this
    {
      NonEmpty(store)
    }

    constructor ()
      ensures Valid() && store == map[]
    {
      store := map[];
    }

    method ClearExpiredItemsAt(now: int)
      requires Valid()
      modifies this
      ensures Valid() && store == Evict(old(store), now)
    {
      var todo := store.Keys;
      while todo != {}
        invariant todo <= store.Keys <= old(store).Keys
        invariant forall key :: key in store ==> store[key] == old(store)[key]
        invariant forall key :: key in old(store) && key !in todo ==> (key in store <==> !Expired(old(store)[key], now))
        decreases |todo|
      {
        var key :| key in todo;
        var size := |store[key].timestamps|;
        if size == 0 || now - store[key].timestamps[size - 1] >= store[key].duration {
          store := store - {key};
        }
        todo := todo - {key};
      }
    }

    method Request(key: string, maxRequestNum: int, duration: int, now: int) returns (ok: bool)
      requires Valid()
      modifies this
      ensures Valid()
      ensures ok == Admits(old(store), key, maxRequestNum, duration, now)
      ensures store == Requested(old(store), key, maxRequestNum, duration, now)
    {
      if key in store {
        var entry := store[key].(duration := duration);
        if |entry.timestamps| < maxRequestNum {
          store := store[key := entry.(timestamps := entry.timestamps + [now])];
          return true;
        } else if now - entry.timestamps[0] >= duration {
          store := store[key := entry.(timestamps := entry.timestamps[1..] + [now])];
          return true;
        } else {
          store := store[key := entry];
          return false;
        }
      } else {
        assert [] + [now] == [now];
        store := store[key := Entry([now], duration)];
      }
      return true;
    }
  }

  // ----- Runs

  /** The operations in the order in which they took the mutex. */
  datatype Event = Request(key: string, max: int, duration: int, now: int) | Cleanup(now: int)

  function Init<T>(s: seq<T>): seq<T>
    requires s != []
  {
    s[..|s| - 1]
  }

  function Last<T>(s: seq<T>): T
    requires s != []
  {
    s[|s| - 1]
  }

  /** The store after any run whatsoever; indexing the head of a queue is always safe. */
  function After(es: seq<Event>): (s: Store)
    ensures NonEmpty(s)
  {
    if es == [] then map[]
    else
      var before := After(Init(es));
      match Last(es)
      case Request(key, max, duration, now) => Requested(before, key, max, duration, now)
      case Cleanup(now) => Evict(before, now)
  }

  /** The verdict on one more request. */
  predicate Accepts(es: seq<Event>, e: Event)
    requires e.Request?
  {
    Admits(After(es), e.key, e.max, e.duration, e.now)
  }

  /** The unbounded log: the times of all accepted requests of a key. */
  function Accepted(es: seq<Event>, key: string): seq<int> {
    if es == [] then []
    else
      var e := Last(es);
      Accepted(Init(es), key) + if e.Request? && e.key == key && Accepts(Init(es), e) then [e.now] else []
  }

  /** How many entries of a log are younger than `duration`. */
  function Young(log: seq<int>, now: int, duration: int): nat {
    if log == [] then 0
    else Young(Init(log), now, duration) + if now - Last(log) < duration then 1 else 0
  }

  /** How many entries of a log lie in the window from `start`, inclusive, to `start + length`, exclusive. */
  function InWindow(log: seq<int>, start: int, length: int): nat {
    if log == [] then 0
    else InWindow(Init(log), start, length) + if start <= Last(log) < start + length then 1 else 0
  }

  ghost predicate Past(es: seq<Event>, t: int) {
    forall i :: 0 <= i < |es| ==> es[i].now <= t
  }

  /**
   Requests read a non-decreasing clock under the mutex.  A cleanup reads it before taking the mutex, so its
   reading may be older than those of requests it runs after, but not newer than those of later requests.
   */
  ghost predicate Clocked(es: seq<Event>) {
    es == [] || (Clocked(Init(es)) && (Last(es).Request? ==> Past(Init(es), Last(es).now)))
  }

  /** All requests of the key use the same limit and duration. */
  ghost predicate Uniform(es: seq<Event>, key: string, max: int, duration: int) {
    forall i :: 0 <= i < |es| && es[i].Request? && es[i].key == key ==> es[i].max == max && es[i].duration == duration
  }

  /** A limit below one behaves like one: the first request of an absent key is admitted unconditionally. */
  function Effective(max: int): nat {
    if max < 1 then 1 else max
  }

  ghost predicate Sorted(log: seq<int>) {
    forall i, j :: 0 <= i < j < |log| ==> log[i] <= log[j]
  }

  /** The newest entries of the log, in order. */
  ghost predicate Newest(q: seq<int>, log: seq<int>) {
    |q| <= |log| && q == log[|log| - |q|..]
  }

  /** At time `t` the log is in the past, and what it holds beyond its newest `n` entries is too old to matter. */
  ghost predicate Settled(log: seq<int>, n: nat, duration: int, t: int) {
    && (forall i :: 0 <= i < |log| ==> log[i] <= t)
    && (forall i :: 0 <= i < |log| - n ==> t - log[i] >= duration)
  }

  /**
   The queue is the newest part of the log, short enough, and everything the log has beyond it is too old to
   matter at any time from now on.
   */
  ghost predicate Tracks(es: seq<Event>, key: string, max: int, duration: int) {
    var log, q := Accepted(es, key), Queue(After(es), key);
    && Newest(q, log) && |q| <= Effective(max) && Sorted(log)
    && (key in After(es) ==> After(es)[key].duration == duration)
    && (forall t :: Past(es, t) ==> Settled(log, |q|, duration, t))
  }

  lemma {:induction false} YoungSplits(x: seq<int>, y: seq<int>, now: int, duration: int)
    ensures Young(x + y, now, duration) == Young(x, now, duration) + Young(y, now, duration)
  {
    if y == [] {
      assert x + y == x;
    } else {
      assert Init(x + y) == x + Init(y);
      YoungSplits(x, Init(y), now, duration);
    }
  }

  lemma {:induction false} NoneYoung(log: seq<int>, now: int, duration: int)
    requires forall i :: 0 <= i < |log| ==> now - log[i] >= duration
    ensures Young(log, now, duration) == 0
  {
    if log != [] {
      NoneYoung(Init(log), now, duration);
    }
  }

  lemma {:induction false} YoungAtMostLength(log: seq<int>, now: int, duration: int)
    ensures Young(log, now, duration) <= |log|
    ensures (forall i :: 0 <= i < |log| ==> now - log[i] < duration) ==> Young(log, now, duration) == |log|
  {
    if log != [] {
      YoungAtMostLength(Init(log), now, duration);
    }
  }

  /** In a sorted queue, fewer than all entries are young exactly if the head is not. */
  lemma HeadDecides(q: seq<int>, now: int, duration: int)
    requires Sorted(q) && q != []
    ensures Young(q, now, duration) < |q| <==> now - q[0] >= duration
  {
    YoungAtMostLength(q, now, duration);
    if now - q[0] >= duration {
      assert q == [q[0]] + q[1..];
      YoungSplits([q[0]], q[1..], now, duration);
      NoneYoung([q[0]], now, duration);
      YoungAtMostLength(q[1..], now, duration);
    }
  }

  /** While the queue tracks the log, the queue alone decides how the log would. */
  lemma TrackedVerdict(es: seq<Event>, e: Event)
    requires e.Request? && Tracks(es, e.key, e.max, e.duration) && Past(es, e.now)
    ensures Accepts(es, e) <==> Young(Accepted(es, e.key), e.now, e.duration) < Effective(e.max)
  {
    hide After, Accepted, Young;
    var log, q := Accepted(es, e.key), Queue(After(es), e.key);
    var aged := log[..|log| - |q|];
    assert log == aged + q;
    assert Settled(log, |q|, e.duration, e.now);
    YoungSplits(aged, q, e.now, e.duration);
    NoneYoung(aged, e.now, e.duration);
    YoungAtMostLength(q, e.now, e.duration);
    if q != [] {
      HeadDecides(q, e.now, e.duration);
    }
  }

  lemma PastShrinks(es: seq<Event>, t: int)
    requires es != [] && Past(es, t)
    ensures Past(Init(es), t) && Last(es).now <= t
  {
  }

  lemma NewestGrows(q: seq<int>, log: seq<int>, x: int)
    requires Newest(q, log)
    ensures Newest(q + [x], log + [x])
    ensures q != [] ==> Newest(q[1..] + [x], log + [x])
  {
    assert (log + [x])[|log| - |q|..] == log[|log| - |q|..] + [x];
    if q != [] {
      assert (log + [x])[|log| - |q| + 1..] == log[|log| - |q|..][1..] + [x];
    }
  }

  /** An accepted request extends log and queue alike; the queue drops its head only when the head has aged. */
  lemma AcceptedRequestKeepsTracking(es: seq<Event>, e: Event, max: int, duration: int)
    requires e.Request? && e.max == max && e.duration == duration && Past(es, e.now)
    requires Tracks(es, e.key, max, duration) && Accepts(es, e)
    requires Accepted(es + [e], e.key) == Accepted(es, e.key) + [e.now]
    requires After(es + [e]) == Requested(After(es), e.key, max, duration, e.now)
    ensures Tracks(es + [e], e.key, max, duration)
  {
    hide After, Accepted, Requested, Queue, Admits, Past, Settled, Newest, Sorted;
    var log, q := Accepted(es, e.key), Queue(After(es), e.key);
    QueueOfRequested(After(es), e.key, max, duration, e.now);
    NewestGrows(q, log, e.now);
    assert Settled(log, |q|, duration, e.now);
    SortedGrows(log, |q|, duration, e.now);
    forall t | Past(es + [e], t) ensures Settled(log + [e.now], |Queue(After(es + [e]), e.key)|, duration, t) {
      PastShrinksBy(es, e, t);
      SettledGrows(log, q, duration, e.now, t);
    }
  }

  /** The queue after an accepted request; it is shifted only if its head has aged. */
  lemma QueueOfRequested(s: Store, key: string, max: int, duration: int, now: int)
    requires (key in s ==> |s[key].timestamps| > 0) && Admits(s, key, max, duration, now)
    ensures var q, s' := Queue(s, key), Requested(s, key, max, duration, now);
            && key in s' && s'[key].duration == duration
            && (if q != [] && |q| >= max then Queue(s', key) == q[1..] + [now] && now - q[0] >= duration
                else Queue(s', key) == q + [now] && |q| + 1 <= Effective(max))
  {
  }

  lemma SortedGrows(log: seq<int>, n: nat, duration: int, x: int)
    requires Sorted(log) && Settled(log, n, duration, x)
    ensures Sorted(log + [x])
  {
  }

  lemma PastShrinksBy(es: seq<Event>, e: Event, t: int)
    requires Past(es + [e], t)
    ensures Past(es, t) && e.now <= t
  {
    assert (es + [e])[|es|] == e;
    assert forall i :: 0 <= i < |es| ==> (es + [e])[i] == es[i];
  }

  /** Appending keeps a log settled, also beside a queue whose aged head was dropped. */
  lemma SettledGrows(log: seq<int>, q: seq<int>, duration: int, now: int, t: int)
    requires Newest(q, log) && Settled(log, |q|, duration, t) && now <= t
    ensures Settled(log + [now], |q| + 1, duration, t)
    ensures q != [] && now - q[0] >= duration ==> Settled(log + [now], |q|, duration, t)
  {
    if q != [] {
      assert q[0] == log[|log| - |q|];
    }
  }

  /** A request keeps the queue in step with the log. */
  lemma RequestKeepsTracking(es: seq<Event>, e: Event, key: string, max: int, duration: int)
    requires e.Request? && Past(es, e.now) && (e.key == key ==> e.max == max && e.duration == duration)
    requires Tracks(es, key, max, duration)
    ensures Tracks(es + [e], key, max, duration)
  {
    var es' := es + [e];
    assert Init(es') == es && Last(es') == e;
    if e.key == key && Accepts(es, e) {
      AcceptedRequestKeepsTracking(es, e, max, duration);
    } else {
      assert Accepted(es', key) == Accepted(es, key) && Queue(After(es'), key) == Queue(After(es), key);
      forall t | Past(es', t) ensures Past(es, t) {
        PastShrinks(es', t);
      }
    }
  }

  lemma AfterCleanup(es: seq<Event>, now: int)
    ensures After(es + [Cleanup(now)]) == Evict(After(es), now)
  {
    assert Init(es + [Cleanup(now)]) == es && Last(es + [Cleanup(now)]) == Cleanup(now);
  }

  lemma CleanupAcceptsNothing(es: seq<Event>, e: Event, key: string)
    requires e.Cleanup?
    ensures Accepted(es + [e], key) == Accepted(es, key)
  {
    hide Accepts;
    assert Init(es + [e]) == es && Last(es + [e]) == e;
  }

  /** So does a cleanup: what it drops is too old from then on. */
  lemma CleanupKeepsTracking(es: seq<Event>, e: Event, key: string, max: int, duration: int)
    requires e.Cleanup? && Tracks(es, key, max, duration)
    ensures Tracks(es + [e], key, max, duration)
  {
    hide After, Accepted, Evict, Queue, Past, Settled, Newest, Sorted;
    var log, q, q' := Accepted(es, key), Queue(After(es), key), Queue(After(es + [e]), key);
    AfterCleanup(es, e.now);
    CleanupAcceptsNothing(es, e, key);
    QueueOfEvicted(After(es), key, e.now);
    NothingIsNewest(log);
    forall t | Past(es + [e], t) ensures Settled(log, |q'|, duration, t) {
      PastShrinksBy(es, e, t);
      if q' != q {
        AgedLogIsSettled(log, q, duration, e.now, t);
      }
    }
  }

  /** A cleanup keeps an entry as it is, or drops it because its newest request has aged. */
  lemma QueueOfEvicted(s: Store, key: string, now: int)
    requires NonEmpty(s)
    ensures var q, s' := Queue(s, key), Evict(s, now);
            && (key in s' ==> key in s && s'[key] == s[key])
            && (Queue(s', key) == q || (Queue(s', key) == [] && q != [] && key in s && now - q[|q| - 1] >= s[key].duration))
  {
  }

  lemma NothingIsNewest(log: seq<int>)
    ensures Newest([], log)
  {
    assert log[|log|..] == [];
  }

  lemma AgedLogIsSettled(log: seq<int>, q: seq<int>, duration: int, now: int, t: int)
    requires Newest(q, log) && Sorted(log) && q != [] && now - q[|q| - 1] >= duration && now <= t
    requires Settled(log, |q|, duration, t)
    ensures Settled(log, 0, duration, t)
  {
    assert q[|q| - 1] == log[|log| - 1];
  }

  lemma {:induction false} QueueTracksLog(es: seq<Event>, key: string, max: int, duration: int)
    requires Clocked(es) && Uniform(es, key, max, duration)
    ensures Tracks(es, key, max, duration)
  {
    if es != [] {
      QueueTracksLog(Init(es), key, max, duration);
      assert es == Init(es) + [Last(es)];
      if Last(es).Request? {
        RequestKeepsTracking(Init(es), Last(es), key, max, duration);
      } else {
        CleanupKeepsTracking(Init(es), Last(es), key, max, duration);
      }
    }
  }

  /** One more request after a well-clocked run in which its key has kept one limit and duration. */
  ghost predicate Admissible(es: seq<Event>, e: Event) {
    e.Request? && Clocked(es + [e]) && Uniform(es + [e], e.key, e.max, e.duration)
  }

  /**
   The limiter refines the log: after any run, with cleanups anywhere, a request is accepted if and only if fewer
   than the (effective) limit of accepted requests of its key are younger than the duration.
   */
  lemma RefinesLog(es: seq<Event>, e: Event)
    requires Admissible(es, e)
    ensures Accepts(es, e) <==> Young(Accepted(es, e.key), e.now, e.duration) < Effective(e.max)
  {
    assert Init(es + [e]) == es && Last(es + [e]) == e;
    assert forall i :: 0 <= i < |es| ==> (es + [e])[i] == es[i];
    assert (es + [e])[|es|] == e;
    QueueTracksLog(es, e.key, e.max, e.duration);
    TrackedVerdict(es, e);
  }

  /** Admit exactly while fewer than the configured limit are young. */
  ghost predicate FollowsLimit(es: seq<Event>, e: Event)
    requires e.Request?
  {
    Accepts(es, e) <==> Young(Accepted(es, e.key), e.now, e.duration) < e.max
  }

  /** A limit below one is not followed: the first request of a key passes. */
  lemma LimitBelowOneAdmits(e: Event)
    requires e.Request? && e.max < 1
    ensures Admissible([], e) && !FollowsLimit([], e)
  {
    assert Admissible([], e) by {
      var es: seq<Event> := [] + [e];
      assert Init(es) == [] && Last(es) == e;
      assert Clocked(Init(es)) && Past(Init(es), e.now);
    }
    assert After([]) == map[] && Accepted([], e.key) == [];
  }

  /** The configured limit is followed in every run if and only if it is at least one. */
  lemma LimitIsFollowedIff(max: int)
    ensures (forall es: seq<Event>, e: Event :: Admissible(es, e) && e.max == max ==> FollowsLimit(es, e)) <==> max >= 1
  {
    if max >= 1 {
      forall es: seq<Event>, e: Event | Admissible(es, e) && e.max == max ensures FollowsLimit(es, e) {
        RefinesLog(es, e);
      }
    } else {
      LimitBelowOneAdmits(Request("k", max, 60, 0));
    }
  }

  lemma {:induction false} SortedIsYoungIff(log: seq<int>, now: int, duration: int)
    requires Sorted(log)
    ensures Young(log, now, duration) > 0 <==> log != [] && now - log[|log| - 1] < duration
  {
    if log != [] && now - log[|log| - 1] >= duration {
      NoneYoung(log, now, duration);
    }
  }

  /**
   A cleanup no earlier than the requests forgets exactly the keys without a young accepted request, and leaves the
   entries of the others as they are.
   */
  lemma CleanupKeepsTheYoung(es: seq<Event>, key: string, max: int, duration: int, now: int)
    requires Clocked(es) && Uniform(es, key, max, duration) && Past(es, now)
    ensures var before, after := After(es), After(es + [Cleanup(now)]);
            && (key in after <==> Young(Accepted(es, key), now, duration) > 0)
            && (key in after ==> key in before && after[key] == before[key])
  {
    hide Accepted, Young, After, Clocked, Uniform;
    var log, q := Accepted(es, key), Queue(After(es), key);
    AfterCleanup(es, now);
    QueueTracksLog(es, key, max, duration);
    assert Settled(log, |q|, duration, now);
    SortedIsYoungIff(log, now, duration);
    if q == [] {
      NoneYoung(log, now, duration);
    } else {
      assert q[|q| - 1] == log[|log| - 1];
    }
  }

  // ----- The window bound

  /** Entries of a window that ends no earlier than now's horizon are all young. */
  lemma {:induction false} WindowIsYoung(log: seq<int>, start: int, duration: int, now: int)
    requires now < start + duration
    ensures InWindow(log, start, duration) <= Young(log, now, duration)
  {
    if log != [] {
      WindowIsYoung(Init(log), start, duration, now);
    }
  }

  /** Every half-open window of length `duration` holds at most the (effective) limit of accepted requests of a key. */
  lemma {:induction false} WindowBound(es: seq<Event>, key: string, max: int, duration: int, start: int)
    requires Clocked(es) && Uniform(es, key, max, duration)
    ensures InWindow(Accepted(es, key), start, duration) <= Effective(max)
  {
    hide After, Accepts, Young, Accepted;
    if es == [] {
      NothingAccepted(key);
    } else {
      var e, before := Last(es), Init(es);
      WindowBound(before, key, max, duration, start);
      AcceptedGrows(before, e, key);
      assert es == before + [e];
      if e.Request? && e.key == key && Accepts(before, e) {
        RefinesLog(before, e);
        assert Init(Accepted(es, key)) == Accepted(before, key);
        if e.now < start + duration {
          WindowIsYoung(Accepted(before, key), start, duration, e.now);
        }
      } else {
        assert Accepted(before, key) + [] == Accepted(before, key);
      }
    }
  }

  lemma NothingAccepted(key: string)
    ensures Accepted([], key) == []
  {
  }

  lemma AcceptedGrows(es: seq<Event>, e: Event, key: string)
    ensures Accepted(es + [e], key) == Accepted(es, key) + if e.Request? && e.key == key && Accepts(es, e) then [e.now] else []
  {
    hide Accepts;
    assert Init(es + [e]) == es && Last(es + [e]) == e;
  }

  // ----- Keys are independent

  /** The run as one key sees it: its own requests, and the cleanups. */
  function Project(es: seq<Event>, key: string): seq<Event> {
    if es == [] then []
    else Project(Init(es), key) + if Last(es).Cleanup? || Last(es).key == key then [Last(es)] else []
  }

  /** Requests of other keys, whatever their limits, durations and times, never change a key's verdicts. */
  lemma {:induction false} KeysAreIndependent(es: seq<Event>, key: string)
    ensures key in After(es) <==> key in After(Project(es, key))
    ensures key in After(es) ==> After(es)[key] == After(Project(es, key))[key]
    ensures Accepted(es, key) == Accepted(Project(es, key), key)
  {
    if es != [] {
      KeysAreIndependent(Init(es), key);
      var p, e := Project(Init(es), key), Last(es);
      if e.Cleanup? || e.key == key {
        assert Init(p + [e]) == p && Last(p + [e]) == e;
      } else {
        assert p + [] == p;
      }
    }
  }
}
