/**
 The usage counters of request-body storages.  Creating a storage adds to two global counters and closing it
 subtracts from them, each by a separate atomic operation, so creations and closes of different storages interleave
 freely.  The run theorems range over every interleaving.
 */
module StorageAccounting {

  datatype Kind = Memory | Disk

  /** How far a storage has come through its two additions and, once closed, its two subtractions. */
  datatype Phase =
    | Fresh          // nothing added yet
    | Counted        // counted, bytes not yet added
    | Open           // published to its owner
    | Closing        // the closed flag was swapped, nothing subtracted yet
    | CountNegative  // about to overwrite a negative file count with zero
    | Uncounted      // count subtracted, bytes not yet
    | BytesNegative  // about to overwrite a negative byte total with zero
    | Closed

  datatype Storage = Storage(kind: Kind, size: nat, phase: Phase)

  datatype State = State(
    storages: seq<Storage>,
    memoryCount: int, memoryBytes: int,
    diskCount: int, diskBytes: int)

  const EMPTY := State([], 0, 0, 0, 0)

  function Count(s: State, k: Kind): int {
    if k.Memory? then s.memoryCount else s.diskCount
  }

  function Bytes(s: State, k: Kind): int {
    if k.Memory? then s.memoryBytes else s.diskBytes
  }

  function SetCount(s: State, k: Kind, n: int): State {
    if k.Memory? then s.(memoryCount := n) else s.(diskCount := n)
  }

  function SetBytes(s: State, k: Kind, n: int): State {
    if k.Memory? then s.(memoryBytes := n) else s.(diskBytes := n)
  }

  /**
   The atomic steps.  A storage is created for an announced length and then holds what was written; the two are equal
   for data in memory, and differ for a stream whose length was announced before it was decompressed.  `CloseAgain` is
   a repeated `Close`, whose compare-and-swap fails.
   */
  datatype Event =
    | Create(kind: Kind, announced: nat, size: nat)
    | AddCount(id: nat)
    | AddBytes(id: nat)
    | Close(id: nat)
    | CloseAgain(id: nat)
    | SubtractCount(id: nat)
    | StoreZeroCount(id: nat)
    | SubtractBytes(id: nat)
    | StoreZeroBytes(id: nat)

  /** The phase in which a storage's thread can take the step. */
  function Requires(e: Event): Phase
    requires !e.Create? && !e.CloseAgain?
  {
    match e
    case AddCount(_) => Fresh
    case AddBytes(_) => Counted
    case Close(_) => Open
    case SubtractCount(_) => Closing
    case StoreZeroCount(_) => CountNegative
    case SubtractBytes(_) => Uncounted
    case StoreZeroBytes(_) => BytesNegative
  }

  ghost predicate CanHappen(s: State, e: Event) {
    e.Create? || (e.id < |s.storages| && (e.CloseAgain? || s.storages[e.id].phase == Requires(e)))
  }

  function Move(s: State, id: nat, phase: Phase): State
    requires id < |s.storages|
  {
    s.(storages := s.storages[id := s.storages[id].(phase := phase)])
  }

  function Step(s: State, e: Event): State
    requires CanHappen(s, e)
  {
    if e.Create? then s.(storages := s.storages + [Storage(e.kind, e.size, Fresh)])
    else if e.CloseAgain? then s
    else
      var Storage(kind, size, _) := s.storages[e.id];
      match e
      case AddCount(id) => SetCount(Move(s, id, Counted), kind, Count(s, kind) + 1)
      case AddBytes(id) => SetBytes(Move(s, id, Open), kind, Bytes(s, kind) + size)
      case Close(id) => Move(s, id, Closing)
      case SubtractCount(id) =>
        var n := Count(s, kind) - 1;
        SetCount(Move(s, id, if kind.Disk? && n < 0 then CountNegative else Uncounted), kind, n)
      case StoreZeroCount(id) => SetCount(Move(s, id, Uncounted), kind, 0)
      case SubtractBytes(id) =>
        var n := Bytes(s, kind) - size;
        SetBytes(Move(s, id, if kind.Disk? && n < 0 then BytesNegative else Closed), kind, n)
      case StoreZeroBytes(id) => SetBytes(Move(s, id, Closed), kind, 0)
  }

  ghost predicate LegalRun(s: State, es: seq<Event>)
    decreases |es|
  {
    es == [] || (CanHappen(s, es[0]) && LegalRun(Step(s, es[0]), es[1..]))
  }

  ghost function Run(s: State, es: seq<Event>): State
    requires LegalRun(s, es)
    decreases |es|
  {
    if es == [] then s else Run(Step(s, es[0]), es[1..])
  }

  // ----- The invariant

  /** What a storage currently contributes to the count of its kind. */
  function CountOf(x: Storage, k: Kind): nat {
    if x.kind == k && (x.phase == Counted || x.phase == Open || x.phase == Closing) then 1 else 0
  }

  /** What a storage currently contributes to the bytes of its kind. */
  function BytesOf(x: Storage, k: Kind): nat {
    if x.kind == k && (x.phase == Open || x.phase == Closing || x.phase == Uncounted) then x.size else 0
  }

  function TotalCount(xs: seq<Storage>, k: Kind): nat {
    if xs == [] then 0 else TotalCount(xs[..|xs| - 1], k) + CountOf(xs[|xs| - 1], k)
  }

  function TotalBytes(xs: seq<Storage>, k: Kind): nat {
    if xs == [] then 0 else TotalBytes(xs[..|xs| - 1], k) + BytesOf(xs[|xs| - 1], k)
  }

  /** The counters are exact at every moment, and nobody is about to clamp one. */
  ghost predicate Exact(s: State) {
    && (forall k :: Count(s, k) == TotalCount(s.storages, k) && Bytes(s, k) == TotalBytes(s.storages, k))
    && (forall i :: 0 <= i < |s.storages| ==> s.storages[i].phase != CountNegative && s.storages[i].phase != BytesNegative)
  }

  lemma {:induction false} TotalsAfterUpdate(xs: seq<Storage>, i: nat, x: Storage, k: Kind)
    requires i < |xs|
    ensures TotalCount(xs[i := x], k) == TotalCount(xs, k) - CountOf(xs[i], k) + CountOf(x, k)
    ensures TotalBytes(xs[i := x], k) == TotalBytes(xs, k) - BytesOf(xs[i], k) + BytesOf(x, k)
    ensures TotalCount(xs, k) >= CountOf(xs[i], k) && TotalBytes(xs, k) >= BytesOf(xs[i], k)
  {
    var ys, n := xs[i := x], |xs| - 1;
    if i == n {
      assert ys[..n] == xs[..n];
    } else {
      assert ys[..n] == xs[..n][i := x];
      TotalsAfterUpdate(xs[..n], i, x, k);
    }
  }

  lemma TotalsAfterCreate(xs: seq<Storage>, x: Storage, k: Kind)
    requires x.phase == Fresh
    ensures TotalCount(xs + [x], k) == TotalCount(xs, k) && TotalBytes(xs + [x], k) == TotalBytes(xs, k)
  {
    assert (xs + [x])[..|xs|] == xs;
  }

  /** Every atomic step keeps the counters exact; in particular a subtraction never goes below zero. */
  lemma StepKeepsExact(s: State, e: Event)
    requires Exact(s) && CanHappen(s, e)
    ensures Exact(Step(s, e))
  {
    hide TotalCount, TotalBytes;
    StepKeepsTotals(s, e, Memory);
    StepKeepsTotals(s, e, Disk);
  }

  lemma StepKeepsTotals(s: State, e: Event, k: Kind)
    requires Exact(s) && CanHappen(s, e)
    ensures var s' := Step(s, e);
            && Count(s', k) == TotalCount(s'.storages, k) && Bytes(s', k) == TotalBytes(s'.storages, k)
            && forall i :: 0 <= i < |s'.storages| ==> s'.storages[i].phase != CountNegative && s'.storages[i].phase != BytesNegative
  {
    hide TotalCount, TotalBytes;
    if e.Create? {
      TotalsAfterCreate(s.storages, Storage(e.kind, e.size, Fresh), k);
    } else if !e.CloseAgain? {
      var s', kind := Step(s, e), s.storages[e.id].kind;
      var x := s'.storages[e.id];
      assert s'.storages == s.storages[e.id := x];
      TotalsAfterUpdate(s.storages, e.id, x, k);
      TotalsAfterUpdate(s.storages, e.id, x, kind);
    }
  }

  lemma {:induction false} RunKeepsExact(s: State, es: seq<Event>)
    requires Exact(s) && LegalRun(s, es)
    ensures Exact(Run(s, es))
    decreases |es|
  {
    if es != [] {
      StepKeepsExact(s, es[0]);
      RunKeepsExact(Step(s, es[0]), es[1..]);
    }
  }

  /** In every interleaving the counters are never negative and no clamp is ever pending. */
  lemma CountersNeverNegative(es: seq<Event>)
    requires LegalRun(EMPTY, es)
    ensures var s := Run(EMPTY, es);
            && (forall k :: Count(s, k) >= 0 && Bytes(s, k) >= 0)
            && forall id :: !CanHappen(s, StoreZeroCount(id)) && !CanHappen(s, StoreZeroBytes(id))
  {
    RunKeepsExact(EMPTY, es);
  }

  // ----- Quiescence

  ghost predicate Quiescent(s: State) {
    forall i :: 0 <= i < |s.storages| ==> s.storages[i].phase in {Open, Closed}
  }

  function OpenSizes(xs: seq<Storage>, k: Kind): seq<nat> {
    if xs == [] then []
    else
      var x := xs[|xs| - 1];
      OpenSizes(xs[..|xs| - 1], k) + if x.kind == k && x.phase == Open then [x.size] else []
  }

  function Sum(ns: seq<nat>): nat {
    if ns == [] then 0 else Sum(ns[..|ns| - 1]) + ns[|ns| - 1]
  }

  lemma {:induction false} TotalsWhenQuiet(xs: seq<Storage>, k: Kind)
    requires forall i :: 0 <= i < |xs| ==> xs[i].phase in {Open, Closed}
    ensures TotalCount(xs, k) == |OpenSizes(xs, k)| && TotalBytes(xs, k) == Sum(OpenSizes(xs, k))
  {
    if xs != [] {
      var front, x := xs[..|xs| - 1], xs[|xs| - 1];
      TotalsWhenQuiet(front, k);
      if x.kind == k && x.phase == Open {
        assert OpenSizes(xs, k)[..|OpenSizes(front, k)|] == OpenSizes(front, k);
      } else {
        assert OpenSizes(xs, k) == OpenSizes(front, k);
      }
    }
  }

  /** Once all creations and closes have finished, the counters equal the number and the total size of the open storages. */
  lemma ExactWhenQuiet(es: seq<Event>, k: Kind)
    requires LegalRun(EMPTY, es) && Quiescent(Run(EMPTY, es))
    ensures var s := Run(EMPTY, es);
            Count(s, k) == |OpenSizes(s.storages, k)| && Bytes(s, k) == Sum(OpenSizes(s.storages, k))
  {
    RunKeepsExact(EMPTY, es);
    TotalsWhenQuiet(Run(EMPTY, es).storages, k);
  }

  // ----- The disk limit

  /** Disk bytes that have been admitted but not yet added. */
  function PendingOf(x: Storage): nat {
    if x.kind.Disk? && (x.phase == Fresh || x.phase == Counted) then x.size else 0
  }

  function Pending(xs: seq<Storage>): nat {
    if xs == [] then 0 else Pending(xs[..|xs| - 1]) + PendingOf(xs[|xs| - 1])
  }

  /** The disk bytes in use once every admitted storage has been added. */
  function Reserved(s: State): int {
    s.diskBytes + Pending(s.storages)
  }

  /** `IsDiskCacheAvailable` at the moment the disk storage is created; it sees the announced length. */
  ghost predicate Admitted(s: State, e: Event, max: int) {
    e.Create? && e.kind.Disk? ==> s.diskBytes + e.announced <= max
  }

  /** No disk storage holds more than `excess` bytes beyond what was announced for it. */
  ghost predicate AnnouncedUpTo(es: seq<Event>, excess: nat) {
    forall i :: 0 <= i < |es| && es[i].Create? && es[i].kind.Disk? ==> es[i].size <= es[i].announced + excess
  }

  /** No other disk storage is between its admission and its byte count. */
  ghost predicate Alone(s: State, e: Event) {
    e.Create? && e.kind.Disk? ==> Pending(s.storages) == 0
  }

  /** The guard that also counts what has been admitted and not yet added. */
  ghost predicate Fits(s: State, e: Event, max: int) {
    e.Create? && e.kind.Disk? ==> Reserved(s) + e.size <= max
  }

  ghost predicate AdmittedRun(s: State, es: seq<Event>, max: int, serial: bool)
    requires LegalRun(s, es)
    decreases |es|
  {
    es == [] || (Admitted(s, es[0], max) && (serial ==> Alone(s, es[0])) && AdmittedRun(Step(s, es[0]), es[1..], max, serial))
  }

  ghost predicate FittingRun(s: State, es: seq<Event>, max: int)
    requires LegalRun(s, es)
    decreases |es|
  {
    es == [] || (Fits(s, es[0], max) && FittingRun(Step(s, es[0]), es[1..], max))
  }

  ghost predicate NoDiskCreate(es: seq<Event>) {
    forall i :: 0 <= i < |es| && es[i].Create? ==> es[i].kind.Memory?
  }

  /** Whatever has already been admitted finishes within the limit, in every interleaving. */
  ghost predicate Bounded(s: State, max: int) {
    forall es :: LegalRun(s, es) && NoDiskCreate(es) ==> Run(s, es).diskBytes <= max
  }

  ghost predicate AlwaysBounded(s: State, es: seq<Event>, max: int)
    requires LegalRun(s, es)
    decreases |es|
  {
    Bounded(s, max) && (es != [] ==> AlwaysBounded(Step(s, es[0]), es[1..], max))
  }

  lemma {:induction false} PendingAfterUpdate(xs: seq<Storage>, i: nat, x: Storage)
    requires i < |xs|
    ensures Pending(xs[i := x]) == Pending(xs) - PendingOf(xs[i]) + PendingOf(x)
    ensures Pending(xs) >= PendingOf(xs[i])
  {
    var ys, n := xs[i := x], |xs| - 1;
    if i == n {
      assert ys[..n] == xs[..n];
    } else {
      assert ys[..n] == xs[..n][i := x];
      PendingAfterUpdate(xs[..n], i, x);
    }
  }

  lemma PendingAfterCreate(xs: seq<Storage>, x: Storage)
    ensures Pending(xs + [x]) == Pending(xs) + PendingOf(x)
  {
    assert (xs + [x])[..|xs|] == xs;
  }

  /** A step changes the reserved bytes only by admitting a disk storage or by releasing one. */
  lemma StepChangesReserved(s: State, e: Event)
    requires Exact(s) && CanHappen(s, e)
    ensures e.Create? && e.kind.Disk? ==> Reserved(Step(s, e)) == Reserved(s) + e.size
    ensures !(e.Create? && e.kind.Disk?) ==> Reserved(Step(s, e)) <= Reserved(s)
    ensures e.AddCount? || e.AddBytes? ==> Reserved(Step(s, e)) == Reserved(s)
  {
    hide Pending, TotalCount, TotalBytes;
    if e.Create? {
      PendingAfterCreate(s.storages, Storage(e.kind, e.size, Fresh));
    } else if !e.CloseAgain? {
      var s' := Step(s, e);
      assert s'.storages == s.storages[e.id := s'.storages[e.id]];
      PendingAfterUpdate(s.storages, e.id, s'.storages[e.id]);
    }
  }

  lemma {:induction false} RunKeepsReserved(s: State, es: seq<Event>)
    requires Exact(s) && LegalRun(s, es) && NoDiskCreate(es)
    ensures Run(s, es).diskBytes <= Reserved(s)
    decreases |es|
  {
    if es != [] {
      StepKeepsExact(s, es[0]);
      StepChangesReserved(s, es[0]);
      RunKeepsReserved(Step(s, es[0]), es[1..]);
    }
  }

  lemma {:induction false} NothingPending(xs: seq<Storage>)
    requires forall i :: 0 <= i < |xs| ==> PendingOf(xs[i]) == 0
    ensures Pending(xs) == 0
  {
    if xs != [] {
      NothingPending(xs[..|xs| - 1]);
    }
  }

  /** The additions a storage still has to make. */
  function StepsLeft(x: Storage): nat {
    if x.kind.Memory? then 0 else if x.phase == Fresh then 2 else if x.phase == Counted then 1 else 0
  }

  /** A run that makes every pending disk addition, from the given storage on. */
  lemma {:induction false} FinishPending(s: State, i: nat) returns (es: seq<Event>)
    requires Exact(s) && i <= |s.storages| && forall j :: 0 <= j < i ==> PendingOf(s.storages[j]) == 0
    ensures LegalRun(s, es) && NoDiskCreate(es) && Run(s, es).diskBytes == Reserved(s)
    decreases |s.storages| - i, if i < |s.storages| then StepsLeft(s.storages[i]) else 0
  {
    hide Exact, Run, LegalRun;
    if i == |s.storages| {
      NothingPending(s.storages);
      es := [];
      RunOfNone(s);
    } else if StepsLeft(s.storages[i]) == 0 {
      es := FinishPending(s, i + 1);
    } else {
      var e := if s.storages[i].phase == Fresh then AddCount(i) else AddBytes(i);
      StepKeepsExact(s, e);
      StepChangesReserved(s, e);
      var rest := FinishPending(Step(s, e), i);
      RunOfCons(s, e, rest);
      es := [e] + rest;
    }
  }

  lemma RunOfNone(s: State)
    ensures LegalRun(s, []) && Run(s, []) == s
  {
  }

  /** What has been admitted finishes within the limit if and only if usage plus pending bytes are within it. */
  lemma BoundedIff(s: State, max: int)
    requires Exact(s)
    ensures Bounded(s, max) <==> Reserved(s) <= max
  {
    hide Exact, Run, LegalRun;
    if Reserved(s) <= max {
      forall es | LegalRun(s, es) && NoDiskCreate(es) ensures Run(s, es).diskBytes <= max {
        RunKeepsReserved(s, es);
      }
    } else {
      var es := FinishPending(s, 0);
    }
  }

  /**
   The exact admission guard: along any run from a bounded state the limit stays safe at every moment if and only if
   every disk storage, when created, fits beside the usage and everything still pending.
   */
  lemma {:induction false} LimitIsKeptIff(s: State, es: seq<Event>, max: int)
    requires Exact(s) && LegalRun(s, es) && Bounded(s, max)
    ensures AlwaysBounded(s, es, max) <==> FittingRun(s, es, max)
    decreases |es|
  {
    hide Bounded, Exact, Reserved;
    if es != [] {
      var s' := Step(s, es[0]);
      StepKeepsExact(s, es[0]);
      StepChangesReserved(s, es[0]);
      BoundedIff(s, max);
      BoundedIff(s', max);
      if Bounded(s', max) {
        LimitIsKeptIff(s', es[1..], max);
      }
    }
  }

  lemma BoundedNow(s: State, max: int)
    requires Bounded(s, max)
    ensures s.diskBytes <= max
  {
    RunOfNone(s);
  }

  lemma {:induction false} AlwaysBoundedAtEnd(s: State, es: seq<Event>, max: int)
    requires LegalRun(s, es) && AlwaysBounded(s, es, max)
    ensures Run(s, es).diskBytes <= max
    decreases |es|
  {
    hide Bounded;
    if es == [] {
      BoundedNow(s, max);
    } else {
      AlwaysBoundedAtEnd(Step(s, es[0]), es[1..], max);
    }
  }

  lemma {:induction false} SerialRunFits(s: State, es: seq<Event>, max: int, excess: nat)
    requires LegalRun(s, es) && AdmittedRun(s, es, max, true) && AnnouncedUpTo(es, excess)
    ensures FittingRun(s, es, max + excess)
    decreases |es|
  {
    hide Pending;
    if es != [] {
      SerialRunFits(Step(s, es[0]), es[1..], max, excess);
    }
  }

  /**
   The program's own check, with admissions one at a time, keeps usage within the limit up to the most that any storage
   holds beyond its announced length; without such an excess it keeps the limit.
   */
  lemma SerialAdmissionKeepsLimit(s: State, es: seq<Event>, max: int, excess: nat)
    requires Exact(s) && LegalRun(s, es) && AdmittedRun(s, es, max, true) && AnnouncedUpTo(es, excess)
    requires Reserved(s) <= max
    ensures Run(s, es).diskBytes <= max + excess
  {
    hide Bounded, Exact, Run, LegalRun, AdmittedRun, AnnouncedUpTo, FittingRun, AlwaysBounded, Reserved;
    BoundedIff(s, max + excess);
    SerialRunFits(s, es, max, excess);
    LimitIsKeptIff(s, es, max + excess);
    AlwaysBoundedAtEnd(s, es, max + excess);
  }

  /** Checking the announced length, with nothing pending, admits only what fits if and only if no more is written. */
  lemma AnnouncedLengthSufficesIff(announced: nat, size: nat)
    ensures (forall s, max :: Exact(s) && Pending(s.storages) == 0 && Admitted(s, Create(Disk, announced, size), max)
                              ==> Fits(s, Create(Disk, announced, size), max))
       <==> size <= announced
  {
    if size > announced {
      var e := Create(Disk, announced, size);
      assert Exact(EMPTY) && Pending(EMPTY.storages) == 0;
      assert Admitted(EMPTY, e, announced) && !Fits(EMPTY, e, announced);
    }
  }

  /** One storage that holds more than was announced exceeds the limit all alone. */
  lemma UnderstatedLengthExceedsLimit(announced: nat, size: nat, max: int)
    requires announced <= max < size
    ensures var es := [Create(Disk, announced, size), AddCount(0), AddBytes(0)];
            LegalRun(EMPTY, es) && AdmittedRun(EMPTY, es, max, true) && Run(EMPTY, es).diskBytes == size > max
  {
    var e, rest := Create(Disk, announced, size), [AddCount(0), AddBytes(0)];
    var es := [e, AddCount(0), AddBytes(0)];
    UninterruptedCreate(EMPTY, Disk, announced, size);
    var s1 := Step(EMPTY, e);
    var s2 := Step(s1, AddCount(0));
    assert es[1..] == rest && rest[1..] == [AddBytes(0)];
    assert AdmittedRun(s2, [AddBytes(0)], max, true);
    assert AdmittedRun(s1, rest, max, true);
  }

  /** Two overlapping admissions of more than half the limit each exceed it. */
  lemma OverlappingAdmissionsExceedLimit(max: int, n: nat)
    requires n <= max < 2 * n
    ensures var es := [Create(Disk, n, n), Create(Disk, n, n), AddCount(0), AddBytes(0), AddCount(1), AddBytes(1)];
            LegalRun(EMPTY, es) && AdmittedRun(EMPTY, es, max, false) && Run(EMPTY, es).diskBytes > max
  {
    var s0 := EMPTY;
    var s1, e1 := Step(s0, Create(Disk, n, n)), [Create(Disk, n, n), AddCount(0), AddBytes(0), AddCount(1), AddBytes(1)];
    var s2, e2 := Step(s1, Create(Disk, n, n)), [AddCount(0), AddBytes(0), AddCount(1), AddBytes(1)];
    var s3, e3 := Step(s2, AddCount(0)), [AddBytes(0), AddCount(1), AddBytes(1)];
    var s4, e4 := Step(s3, AddBytes(0)), [AddCount(1), AddBytes(1)];
    var s5, e5 := Step(s4, AddCount(1)), [AddBytes(1)];
    var s6 := Step(s5, AddBytes(1));
    RunCons(s5, AddBytes(1), [], max);
    RunCons(s4, AddCount(1), e5, max);
    RunCons(s3, AddBytes(0), e4, max);
    RunCons(s2, AddCount(0), e3, max);
    RunCons(s1, Create(Disk, n, n), e2, max);
    RunCons(s0, Create(Disk, n, n), e1, max);
    assert [Create(Disk, n, n)] + e1 == [Create(Disk, n, n), Create(Disk, n, n), AddCount(0), AddBytes(0), AddCount(1), AddBytes(1)];
  }

  lemma RunCons(s: State, e: Event, es: seq<Event>, max: int)
    requires CanHappen(s, e) && Admitted(s, e, max)
    requires LegalRun(Step(s, e), es) && AdmittedRun(Step(s, e), es, max, false)
    ensures LegalRun(s, [e] + es) && AdmittedRun(s, [e] + es, max, false)
    ensures Run(s, [e] + es) == Run(Step(s, e), es)
  {
    RunOfCons(s, e, es);
    assert ([e] + es)[1..] == es;
  }

  // ----- The objects, as one thread sees them

  datatype Counters = Counters(memoryCount: int, memoryBytes: int, diskCount: int, diskBytes: int)

  function CountersOf(s: State): Counters {
    Counters(s.memoryCount, s.memoryBytes, s.diskCount, s.diskBytes)
  }

  function AtLeastZero(n: int): int {
    if n < 0 then 0 else n
  }

  function Added(c: Counters, k: Kind, size: nat): Counters {
    if k.Memory? then c.(memoryCount := c.memoryCount + 1, memoryBytes := c.memoryBytes + size)
    else c.(diskCount := c.diskCount + 1, diskBytes := c.diskBytes + size)
  }

  /** Only the disk counters are clamped. */
  function Removed(c: Counters, k: Kind, size: nat): Counters {
    if k.Memory? then c.(memoryCount := c.memoryCount - 1, memoryBytes := c.memoryBytes - size)
    else c.(diskCount := AtLeastZero(c.diskCount - 1), diskBytes := AtLeastZero(c.diskBytes - size))
  }

  /** The global `diskCacheStats`. */
  class Stats {
    var memoryCount: int
    var memoryBytes: int
    var diskCount: int
    var diskBytes: int

    function View(): Counters
      reads this
    {
      Counters(memoryCount, memoryBytes, diskCount, diskBytes)
    }

    constructor ()
      ensures View() == CountersOf(EMPTY)
    {
      memoryCount, memoryBytes, diskCount, diskBytes := 0, 0, 0, 0;
    }

    /** `IncrementDiskFiles` and `IncrementMemoryBuffers`. */
    method Increment(k: Kind, size: nat)
      modifies this
      ensures View() == Added(old(View()), k, size)
    {
      match k
      case Memory =>
        memoryCount := memoryCount + 1;
        memoryBytes := memoryBytes + size;
      case Disk =>
        diskCount := diskCount + 1;
        diskBytes := diskBytes + size;
    }

    /** `DecrementDiskFiles` and `DecrementMemoryBuffers`. */
    method Decrement(k: Kind, size: nat)
      modifies this
      ensures View() == Removed(old(View()), k, size)
    {
      match k
      case Memory =>
        memoryCount := memoryCount - 1;
        memoryBytes := memoryBytes - size;
      case Disk =>
        diskCount := diskCount - 1;
        if diskCount < 0 {
          diskCount := 0;
        }
        diskBytes := diskBytes - size;
        if diskBytes < 0 {
          diskBytes := 0;
        }
    }
  }

  class BodyStorage {
    const kind: Kind
    const size: nat
    var closed: bool

    constructor (stats: Stats, kind: Kind, size: nat)
      modifies stats
      ensures this.kind == kind && this.size == size && !closed
      ensures stats.View() == Added(old(stats.View()), kind, size)
    {
      this.kind, this.size, closed := kind, size, false;
      new;
      stats.Increment(kind, size);
    }

    /** Closing releases the storage once; closing again changes nothing. */
    method Close(stats: Stats)
      modifies this, stats
      ensures closed
      ensures stats.View() == if old(closed) then old(stats.View()) else Removed(old(stats.View()), kind, size)
    {
      if !closed {
        closed := true;
        stats.Decrement(kind, size);
      }
    }
  }

  /** The methods are the atomic steps taken without interruption: creating adds exactly the new storage's share. */
  lemma UninterruptedCreate(s: State, k: Kind, announced: nat, size: nat)
    requires Exact(s)
    ensures var id := |s.storages|;
            var es := [Create(k, announced, size), AddCount(id), AddBytes(id)];
            && LegalRun(s, es)
            && Run(s, es).storages == s.storages + [Storage(k, size, Open)] && Exact(Run(s, es))
            && CountersOf(Run(s, es)) == Added(CountersOf(s), k, size)
  {
    hide Exact, LegalRun, Run;
    var id := |s.storages|;
    var s1 := Step(s, Create(k, announced, size));
    StepKeepsExact(s, Create(k, announced, size));
    var s2 := Step(s1, AddCount(id));
    StepKeepsExact(s1, AddCount(id));
    StepKeepsExact(s2, AddBytes(id));
    RunOfOne(s2, AddBytes(id));
    RunOfCons(s1, AddCount(id), [AddBytes(id)]);
    RunOfCons(s, Create(k, announced, size), [AddCount(id), AddBytes(id)]);
    assert [Create(k, announced, size)] + [AddCount(id), AddBytes(id)] == [Create(k, announced, size), AddCount(id), AddBytes(id)];
    assert [AddCount(id)] + [AddBytes(id)] == [AddCount(id), AddBytes(id)];
  }

  /** The steps of one close, with the clamps it needs. */
  ghost function CloseSteps(s: State, id: nat): seq<Event>
    requires id < |s.storages|
  {
    var x := s.storages[id];
    [Close(id), SubtractCount(id)]
    + (if x.kind.Disk? && s.diskCount < 1 then [StoreZeroCount(id)] else [])
    + [SubtractBytes(id)]
    + (if x.kind.Disk? && s.diskBytes < x.size then [StoreZeroBytes(id)] else [])
  }

  /** Likewise closing, from any state: it takes back the storage's share, and clamps a disk counter that falls below zero. */
  lemma UninterruptedClose(s: State, id: nat)
    requires id < |s.storages| && s.storages[id].phase == Open
    ensures LegalRun(s, CloseSteps(s, id))
    ensures Run(s, CloseSteps(s, id)).storages == s.storages[id := s.storages[id].(phase := Closed)]
    ensures CountersOf(Run(s, CloseSteps(s, id))) == Removed(CountersOf(s), s.storages[id].kind, s.storages[id].size)
    ensures Exact(s) ==> CloseSteps(s, id) == [Close(id), SubtractCount(id), SubtractBytes(id)]
  {
    hide LegalRun, Run, Exact;
    var s1 := Step(s, Close(id));
    var es1, s2 := SubtractCountPart(s1, id);
    var es2, s3 := SubtractBytesPart(s2, id);
    RunOfConcat(s1, es1, es2);
    RunOfCons(s, Close(id), es1 + es2);
    assert CloseSteps(s, id) == [Close(id)] + (es1 + es2);
    if Exact(s) {
      OpenIsCounted(s, id);
    }
  }

  lemma SubtractCountPart(s: State, id: nat) returns (es: seq<Event>, s': State)
    requires id < |s.storages| && s.storages[id].phase == Closing
    ensures es == [SubtractCount(id)] + if s.storages[id].kind.Disk? && s.diskCount < 1 then [StoreZeroCount(id)] else []
    ensures LegalRun(s, es) && Run(s, es) == s'
    ensures s'.storages == s.storages[id := s.storages[id].(phase := Uncounted)]
    ensures s'.memoryBytes == s.memoryBytes && s'.diskBytes == s.diskBytes
    ensures s.storages[id].kind.Memory? ==> s'.memoryCount == s.memoryCount - 1 && s'.diskCount == s.diskCount
    ensures s.storages[id].kind.Disk? ==> s'.memoryCount == s.memoryCount && s'.diskCount == AtLeastZero(s.diskCount - 1)
  {
    hide LegalRun, Run;
    var s1 := Step(s, SubtractCount(id));
    if s.storages[id].kind.Disk? && s.diskCount < 1 {
      s' := Step(s1, StoreZeroCount(id));
      RunOfOne(s1, StoreZeroCount(id));
      RunOfCons(s, SubtractCount(id), [StoreZeroCount(id)]);
      es := [SubtractCount(id)] + [StoreZeroCount(id)];
    } else {
      s' := s1;
      RunOfOne(s, SubtractCount(id));
      es := [SubtractCount(id)];
    }
  }

  lemma SubtractBytesPart(s: State, id: nat) returns (es: seq<Event>, s': State)
    requires id < |s.storages| && s.storages[id].phase == Uncounted
    ensures es == [SubtractBytes(id)] + if s.storages[id].kind.Disk? && s.diskBytes < s.storages[id].size then [StoreZeroBytes(id)] else []
    ensures LegalRun(s, es) && Run(s, es) == s'
    ensures s'.storages == s.storages[id := s.storages[id].(phase := Closed)]
    ensures s'.memoryCount == s.memoryCount && s'.diskCount == s.diskCount
    ensures s.storages[id].kind.Memory? ==> s'.memoryBytes == s.memoryBytes - s.storages[id].size && s'.diskBytes == s.diskBytes
    ensures s.storages[id].kind.Disk? ==> s'.memoryBytes == s.memoryBytes && s'.diskBytes == AtLeastZero(s.diskBytes - s.storages[id].size)
  {
    hide LegalRun, Run;
    var s1 := Step(s, SubtractBytes(id));
    if s.storages[id].kind.Disk? && s.diskBytes < s.storages[id].size {
      s' := Step(s1, StoreZeroBytes(id));
      RunOfOne(s1, StoreZeroBytes(id));
      RunOfCons(s, SubtractBytes(id), [StoreZeroBytes(id)]);
      es := [SubtractBytes(id)] + [StoreZeroBytes(id)];
    } else {
      s' := s1;
      RunOfOne(s, SubtractBytes(id));
      es := [SubtractBytes(id)];
    }
  }

  lemma {:induction false} RunOfConcat(s: State, es: seq<Event>, more: seq<Event>)
    requires LegalRun(s, es) && LegalRun(Run(s, es), more)
    ensures LegalRun(s, es + more) && Run(s, es + more) == Run(Run(s, es), more)
    decreases |es|
  {
    if es == [] {
      assert es + more == more;
    } else {
      assert (es + more)[1..] == es[1..] + more;
      RunOfConcat(Step(s, es[0]), es[1..], more);
    }
  }

  /** In an exact state the counters cover an open storage. */
  lemma OpenIsCounted(s: State, id: nat)
    requires Exact(s) && id < |s.storages| && s.storages[id].phase == Open
    ensures s.storages[id].kind.Disk? ==> s.diskCount >= 1 && s.diskBytes >= s.storages[id].size
  {
    TotalsAfterUpdate(s.storages, id, s.storages[id], Disk);
  }

  lemma RunOfOne(s: State, e: Event)
    requires CanHappen(s, e)
    ensures LegalRun(s, [e]) && Run(s, [e]) == Step(s, e)
  {
  }

  lemma RunOfCons(s: State, e: Event, es: seq<Event>)
    requires CanHappen(s, e) && LegalRun(Step(s, e), es)
    ensures LegalRun(s, [e] + es) && Run(s, [e] + es) == Run(Step(s, e), es)
  {
    assert ([e] + es)[1..] == es;
  }
}
