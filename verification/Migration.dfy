/**
 The startup migration of a table of secrets: batches by an id cursor, each batch in its own transaction, stopping at
 the first row that cannot be rewrapped.
 */
module Migration {
  import opened Prelude
  import opened Envelope
  import opened Rotation
  import opened IdBatches

  /** The rows that hold a value. */
  function Secrets(w: World): set<int> {
    set id | id in w.rows && w.rows[id].stored != []
  }

  /** The rows a batch query ranges over. */
  function Candidates(w: World, lastID: int): set<int> {
    Beyond(Secrets(w), lastID)
  }

  /** Why a row stops the migration: it cannot be rewrapped, or the guarded update does not touch it. */
  datatype Stop = NotRewrapped(error: Error) | NotUpdated

  /**
   What stops the migration at a row, if anything does.  The update of a plaintext row is guarded against rows that
   were encrypted meanwhile; `like` is the pattern match of the database on the envelope prefix.
   */
  function Fault(a: Aead, w: World, id: int, rnd: int -> Random, like: Bytes -> bool): Option<Stop>
    requires id in w.rows
  {
    match Rewrap(a, w.config, w.rows[id].domain, w.rows[id].stored, rnd(id))
    case Err(e) => Some(NotRewrapped(e))
    case Ok((_, changed)) =>
      if changed && !IsEnvelope(w.rows[id].stored) && like(w.rows[id].stored) then Some(NotUpdated) else None
  }

  // ----- Runs of rewraps

  lemma ApplyRewrapFrame(a: Aead, w: World, id: int, rnd: Random)
    requires id in w.rows
    ensures var w' := ApplyRewrap(a, w, id, rnd);
            w'.config == w.config && w'.rows.Keys == w.rows.Keys && forall k :: k in w.rows && k != id ==> w'.rows[k] == w.rows[k]
  {
    hide Rewrap, Parse, Unwrap;
  }

  lemma {:induction false} RewrapAllFrame(a: Aead, w: World, ids: seq<int>, rnd: int -> Random)
    ensures var w' := Run(a, w, RewrapAll(ids, rnd));
            w'.config == w.config && w'.rows.Keys == w.rows.Keys && forall k :: k in w.rows && k !in ids ==> w'.rows[k] == w.rows[k]
    decreases |ids|
  {
    hide ApplyRewrap;
    if ids != [] {
      var acts := RewrapAll(ids, rnd);
      assert acts[0] == RewrapRow(ids[0], rnd(ids[0])) && acts[1..] == RewrapAll(ids[1..], rnd);
      if ids[0] in w.rows {
        ApplyRewrapFrame(a, w, ids[0], rnd(ids[0]));
      }
      RewrapAllFrame(a, Apply(a, w, acts[0]), ids[1..], rnd);
    }
  }

  lemma {:induction false} RewrapAllConcat(a: Aead, w: World, ids: seq<int>, more: seq<int>, rnd: int -> Random)
    ensures Run(a, w, RewrapAll(ids + more, rnd)) == Run(a, Run(a, w, RewrapAll(ids, rnd)), RewrapAll(more, rnd))
    decreases |ids|
  {
    hide Apply;
    if ids == [] {
      assert ids + more == more;
    } else {
      var acts, all := RewrapAll(ids, rnd), RewrapAll(ids + more, rnd);
      assert (ids + more)[1..] == ids[1..] + more;
      assert acts[0] == all[0] == RewrapRow(ids[0], rnd(ids[0]));
      assert acts[1..] == RewrapAll(ids[1..], rnd) && all[1..] == RewrapAll(ids[1..] + more, rnd);
      RewrapAllConcat(a, Apply(a, w, acts[0]), ids[1..], more, rnd);
    }
  }

  lemma RewrapOne(a: Aead, w: World, id: int, rnd: int -> Random)
    requires id in w.rows
    ensures Run(a, w, RewrapAll([id], rnd)) == ApplyRewrap(a, w, id, rnd(id))
  {
    hide ApplyRewrap;
    var act := RewrapRow(id, rnd(id));
    assert RewrapAll([id], rnd) == [act];
    assert Run(a, w, [act]) == Run(a, Apply(a, w, act), []);
  }

  /** The migration reader and the rewrap refuse an unreadable row for the same reason. */
  lemma UnreadableFault(a: Aead, w: World, id: int, rnd: int -> Random, like: Bytes -> bool)
    requires id in w.rows
    ensures var r := Open(a, w.config, w.rows[id].domain, w.rows[id].stored, true);
            r.Err? ==> Fault(a, w, id, rnd, like) == Some(NotRewrapped(r.error))
  {
  }

  // ----- The loops

  /** One transaction: either every row of the batch is rewrapped, or nothing changes. */
  method MigrateBatch(a: Aead, w: World, batch: seq<int>, rnd: int -> Random, like: Bytes -> bool) returns (t: World, err: Option<Stop>)
    requires Ascending(batch) && forall i :: 0 <= i < |batch| ==> batch[i] in w.rows
    ensures err.None? ==> t == Run(a, w, RewrapAll(batch, rnd)) && forall i :: 0 <= i < |batch| ==> Fault(a, w, batch[i], rnd, like).None?
    ensures err.Some? ==>
              && t == w
              && exists i :: && 0 <= i < |batch| && Fault(a, w, batch[i], rnd, like) == err
                             && forall j :: 0 <= j < i ==> Fault(a, w, batch[j], rnd, like).None?
  {
    hide Rewrap, Open, ApplyRewrap, RewrapAll, Run, Fault;
    t := w;
    NoRewrap(a, w, rnd);
    assert batch[..0] == [];
    for i := 0 to |batch|
      invariant t == Run(a, w, RewrapAll(batch[..i], rnd))
      invariant forall j :: 0 <= j < i ==> Fault(a, w, batch[j], rnd, like).None?
    {
      var id := batch[i];
      RewrapAllFrame(a, w, batch[..i], rnd);
      assert id !in batch[..i];
      FaultOfRow(a, w, t, id, rnd, like);
      var plain := Open(a, t.config, t.rows[id].domain, t.rows[id].stored, true);
      UnreadableFault(a, t, id, rnd, like);
      if plain.Err? {
        return w, Some(NotRewrapped(plain.error));
      }
      var r := Rewrap(a, t.config, t.rows[id].domain, t.rows[id].stored, rnd(id));
      if r.Err? {
        return w, Some(NotRewrapped(r.error));
      }
      ChangedRowIsPlainIff(a, t.config, t.rows[id].domain, t.rows[id].stored, rnd(id));
      if r.value.1 && plain.value.keyID.None? && like(t.rows[id].stored) {
        return w, Some(NotUpdated);
      }
      assert batch[..i + 1] == batch[..i] + [id];
      RewrapAllConcat(a, w, batch[..i], [id], rnd);
      RewrapOne(a, t, id, rnd);
      t := ApplyRewrap(a, t, id, rnd(id));
    }
    assert batch[..|batch|] == batch;
    err := None;
  }

  /** A row's fault is its rewrap's error, and depends on nothing but the row and the configuration. */
  lemma FaultOfRow(a: Aead, w: World, t: World, id: int, rnd: int -> Random, like: Bytes -> bool)
    requires id in w.rows && id in t.rows && t.rows[id] == w.rows[id] && t.config == w.config
    ensures Fault(a, t, id, rnd, like) == Fault(a, w, id, rnd, like)
    ensures var r := Rewrap(a, t.config, t.rows[id].domain, t.rows[id].stored, rnd(id));
            && (r.Err? ==> Fault(a, t, id, rnd, like) == Some(NotRewrapped(r.error)))
            && (r.Ok? ==> Fault(a, t, id, rnd, like)
                          == if r.value.1 && !IsEnvelope(t.rows[id].stored) && like(t.rows[id].stored) then Some(NotUpdated) else None)
  {
    hide Rewrap;
  }

  /** Whether a row that changes was encrypted is what the reader reports. */
  lemma ChangedRowIsPlainIff(a: Aead, cfg: Config, domain: Bytes, stored: Bytes, rnd: Random)
    requires Open(a, cfg, domain, stored, true).Ok?
    ensures var r := Rewrap(a, cfg, domain, stored, rnd);
            r.Ok? && r.value.1 ==> (Open(a, cfg, domain, stored, true).value.keyID.None? <==> !IsEnvelope(stored))
  {
    hide Unwrap, OpenBytes, SealWith;
  }

  lemma NoRewrap(a: Aead, w: World, rnd: int -> Random)
    ensures Run(a, w, RewrapAll([], rnd)) == w
  {
  }

  /** The row that stops the migration: the first one, in id order, that cannot be rewrapped. */
  ghost predicate FirstFault(a: Aead, w: World, rnd: int -> Random, like: Bytes -> bool, id: int, e: Stop) {
    && id in Candidates(w, 0) && Fault(a, w, id, rnd, like) == Some(e)
    && forall k :: k in Candidates(w, 0) && k < id ==> Fault(a, w, k, rnd, like).None?
  }

  /** A number of rows that fills batches. */
  ghost predicate WholeBatches(n: int, batchSize: nat)
    requires batchSize >= 1
  {
    n == 0 || (n > 0 && WholeBatches(n - batchSize, batchSize))
  }

  /** The rewrapped rows are whole batches in id order, and fewer than a batch separate them from the row that failed. */
  ghost predicate StopsAt(w: World, done: seq<int>, batchSize: nat, id: int)
    requires batchSize >= 1
  {
    && Ids(done) <= Candidates(w, 0) && id !in done && WholeBatches(|done|, batchSize)
    && (forall x, y :: x in done && y in Candidates(w, 0) - Ids(done) ==> x < y)
    && |(set k | k in Candidates(w, 0) - Ids(done) && k < id)| < batchSize
  }

  /**
   `MigrateCustomOAuthProviderSecrets` with encryption enabled.  `find` is the batch query and `rnd` the random bytes
   drawn for a row.  Without a fault every secret is rewrapped, once and in id order; otherwise the migration stops at
   the first fault, having rewrapped the whole batches before it and nothing else.
   */
  method MigrateSecrets(a: Aead, start: World, batchSize: nat, find: set<int> -> seq<int>, rnd: int -> Random, like: Bytes -> bool)
    returns (w: World, err: Option<Stop>, done: seq<int>)
    requires batchSize >= 1 && (forall id :: id in start.rows ==> id > 0)
    requires forall s :: IsBatch(s, batchSize, find(s))
    ensures Ascending(done) && w == Run(a, start, RewrapAll(done, rnd))
    ensures err.None? <==> forall id :: id in Candidates(start, 0) ==> Fault(a, start, id, rnd, like).None?
    ensures err.None? ==> Ids(done) == Candidates(start, 0)
    ensures err.Some? ==> exists id :: FirstFault(a, start, rnd, like, id, err.value) && StopsAt(start, done, batchSize, id)
  {
    hide Fault, RewrapAll, Run, Candidates, Progress, StopsAt, FirstFault;
    w, done := start, [];
    var lastID := 0;
    NoRewrap(a, start, rnd);
    ProgressStarts(a, start, rnd, like, batchSize);
    while true
      invariant Progress(a, start, rnd, like, batchSize, done, lastID) && w == Run(a, start, RewrapAll(done, rnd))
      decreases Candidates(start, lastID)
    {
      var batch := find(Candidates(w, lastID));
      BatchIsUntouched(a, start, rnd, like, batchSize, done, lastID, w, batch);
      var t, e := MigrateBatch(a, w, batch, rnd, like);
      if e.Some? {
        BatchFails(a, start, done, lastID, batch, batchSize, rnd, like, e.value);
        FaultRefutes(a, start, rnd, like, e.value);
        return w, e, done;
      }
      if |batch| == 0 {
        break;
      }
      ProgressAdvances(a, start, rnd, like, batchSize, done, lastID, batch);
      RewrapAllConcat(a, start, done, batch, rnd);
      w, done, lastID := t, done + batch, batch[|batch| - 1];
    }
    ProgressEnds(a, start, rnd, like, batchSize, done, lastID);
    err := None;
  }

  /** Every secret up to the cursor has been rewrapped, in whole batches unless none is left. */
  ghost predicate Progress(a: Aead, start: World, rnd: int -> Random, like: Bytes -> bool, batchSize: nat, done: seq<int>, lastID: int)
    requires batchSize >= 1
  {
    && lastID >= 0 && Ascending(done)
    && Ids(done) == Candidates(start, 0) - Candidates(start, lastID)
    && (forall x :: x in Ids(done) ==> x <= lastID && x in start.rows && Fault(a, start, x, rnd, like).None?)
    && (WholeBatches(|done|, batchSize) || Candidates(start, lastID) == {})
  }

  lemma ProgressStarts(a: Aead, start: World, rnd: int -> Random, like: Bytes -> bool, batchSize: nat)
    requires batchSize >= 1
    ensures Progress(a, start, rnd, like, batchSize, [], 0)
  {
  }

  /** The next batch ranges over rows that are still as they were at the start. */
  lemma BatchIsUntouched(a: Aead, start: World, rnd: int -> Random, like: Bytes -> bool, batchSize: nat, done: seq<int>, lastID: int, w: World, batch: seq<int>)
    requires batchSize >= 1 && Progress(a, start, rnd, like, batchSize, done, lastID)
    requires w == Run(a, start, RewrapAll(done, rnd)) && IsBatch(Candidates(w, lastID), batchSize, batch)
    ensures Candidates(w, lastID) == Candidates(start, lastID)
    ensures Ascending(batch) && (batch == [] ==> Candidates(start, lastID) == {})
    ensures forall i :: 0 <= i < |batch| ==>
              batch[i] in w.rows && batch[i] in start.rows && Fault(a, w, batch[i], rnd, like) == Fault(a, start, batch[i], rnd, like)
  {
    hide Fault, RewrapAll, Run, WholeBatches;
    RewrapAllFrame(a, start, done, rnd);
    assert forall k :: k in done <==> k in Ids(done);
    SameBeyond(start, w, lastID);
    FaultsAgree(a, start, w, batch, lastID, rnd, like);
  }

  lemma ProgressAdvances(a: Aead, start: World, rnd: int -> Random, like: Bytes -> bool, batchSize: nat, done: seq<int>, lastID: int, batch: seq<int>)
    requires batchSize >= 1 && Progress(a, start, rnd, like, batchSize, done, lastID)
    requires batch != [] && IsBatch(Candidates(start, lastID), batchSize, batch)
    requires forall i :: 0 <= i < |batch| ==> batch[i] in start.rows && Fault(a, start, batch[i], rnd, like).None?
    ensures var next := batch[|batch| - 1];
            Progress(a, start, rnd, like, batchSize, done + batch, next) && Candidates(start, next) < Candidates(start, lastID)
  {
    hide Fault, WholeBatches;
    BatchAdvances(Secrets(start), lastID, batch, batchSize);
    OneMoreBatch(|done|, batchSize);
    assert forall k :: k in done <==> k in Ids(done);
    AscendingConcat(done, batch);
  }

  lemma ProgressEnds(a: Aead, start: World, rnd: int -> Random, like: Bytes -> bool, batchSize: nat, done: seq<int>, lastID: int)
    requires batchSize >= 1 && Progress(a, start, rnd, like, batchSize, done, lastID) && Candidates(start, lastID) == {}
    ensures Ascending(done) && Ids(done) == Candidates(start, 0)
    ensures forall id :: id in Candidates(start, 0) ==> id in start.rows && Fault(a, start, id, rnd, like).None?
  {
    hide Fault, Candidates;
  }

  lemma FaultRefutes(a: Aead, w: World, rnd: int -> Random, like: Bytes -> bool, e: Stop)
    requires exists id :: FirstFault(a, w, rnd, like, id, e)
    ensures !forall id :: id in Candidates(w, 0) ==> Fault(a, w, id, rnd, like).None?
  {
    hide Fault;
  }

  lemma SameBeyond(start: World, w: World, lastID: int)
    requires lastID >= 0 && w.rows.Keys == start.rows.Keys && forall k :: k in start.rows && k > lastID ==> w.rows[k] == start.rows[k]
    ensures Candidates(w, lastID) == Candidates(start, lastID) <= Candidates(start, 0)
    ensures forall id :: id in Candidates(start, 0) ==> id in start.rows
  {
  }

  /** Rows beyond the cursor are as they were. */
  lemma FaultsAgree(a: Aead, start: World, w: World, batch: seq<int>, lastID: int, rnd: int -> Random, like: Bytes -> bool)
    requires w.config == start.config && w.rows.Keys == start.rows.Keys
    requires forall k :: k in start.rows && k > lastID ==> w.rows[k] == start.rows[k]
    requires Ids(batch) <= Candidates(start, lastID)
    ensures forall i :: 0 <= i < |batch| ==>
              batch[i] in w.rows && batch[i] in Candidates(start, lastID) && Fault(a, w, batch[i], rnd, like) == Fault(a, start, batch[i], rnd, like)
  {
    hide Rewrap;
    assert forall i :: 0 <= i < |batch| ==> batch[i] in Ids(batch);
  }

  lemma OneMoreBatch(n: nat, batchSize: nat)
    requires batchSize >= 1
    ensures WholeBatches(0, batchSize)
    ensures WholeBatches(n, batchSize) ==> WholeBatches(n + batchSize, batchSize)
  {
  }

  /** The failing row of a batch is the first fault of all, and fewer than a batch lie between it and the finished rows. */
  lemma BatchFails(a: Aead, w: World, done: seq<int>, lastID: int, batch: seq<int>, batchSize: nat, rnd: int -> Random, like: Bytes -> bool, e: Stop)
    requires batchSize >= 1 && Progress(a, w, rnd, like, batchSize, done, lastID)
    requires IsBatch(Candidates(w, lastID), batchSize, batch)
    requires forall i :: 0 <= i < |batch| ==> batch[i] in w.rows
    requires exists i :: && 0 <= i < |batch| && Fault(a, w, batch[i], rnd, like) == Some(e)
                         && forall j :: 0 <= j < i ==> Fault(a, w, batch[j], rnd, like).None?
    ensures Ascending(done) && exists id :: FirstFault(a, w, rnd, like, id, e) && StopsAt(w, done, batchSize, id)
  {
    hide Fault, WholeBatches;
    assert forall k :: k in done <==> k in Ids(done);
    var i :| 0 <= i < |batch| && Fault(a, w, batch[i], rnd, like) == Some(e) && forall j :: 0 <= j < i ==> Fault(a, w, batch[j], rnd, like).None?;
    var id := batch[i];
    assert id in Ids(batch);
    assert forall y :: y in Candidates(w, lastID) - Ids(batch) ==> id < y;
    forall k | k in Candidates(w, lastID) && k < id ensures k in batch[..i] {
      assert k in Ids(batch) || k in Candidates(w, lastID) - Ids(batch);
      var j :| 0 <= j < |batch| && batch[j] == k;
      assert batch[..i][j] == k;
    }
    forall k | k in Candidates(w, 0) && k < id ensures Fault(a, w, k, rnd, like).None? {
      if k in Candidates(w, lastID) {
        var j :| 0 <= j < i && batch[..i][j] == k;
      } else {
        assert k in Ids(done);
      }
    }
    var between := set k | k in Candidates(w, 0) - Ids(done) && k < id;
    assert between <= Ids(batch[..i]);
    DistinctCount(batch[..i]);
    SubsetIsSmaller(between, Ids(batch[..i]));
    assert FirstFault(a, w, rnd, like, id, e) && StopsAt(w, done, batchSize, id);
  }

  lemma {:induction false} SubsetIsSmaller(x: set<int>, y: set<int>)
    requires x <= y
    ensures |x| <= |y|
  {
    assert y == x + (y - x);
  }

  // ----- The validation scan

  /** What the scan after the migration demands of a row. */
  predicate Sound(a: Aead, w: World, id: int)
    requires id in w.rows
  {
    if !IsEnvelope(w.rows[id].stored) then !w.config.enabled
    else Open(a, w.config, w.rows[id].domain, w.rows[id].stored, false).Ok?
  }

  /** The two tests amount to one: the value reads back at run time. */
  lemma SoundIff(a: Aead, w: World, id: int)
    requires id in w.rows && w.rows[id].stored != []
    ensures Sound(a, w, id) <==> Open(a, w.config, w.rows[id].domain, w.rows[id].stored, false).Ok?
  {
  }

  lemma AllSoundIff(a: Aead, w: World)
    ensures (forall id :: id in Candidates(w, 0) ==> Sound(a, w, id))
       <==> (forall id :: id in w.rows && id > 0 && w.rows[id].stored != [] ==>
               Open(a, w.config, w.rows[id].domain, w.rows[id].stored, false).Ok?)
  {
    hide Sound, Open;
    assert forall id :: id in Candidates(w, 0) <==> id in w.rows && id > 0 && w.rows[id].stored != [];
    forall id | id in Candidates(w, 0)
      ensures Sound(a, w, id) <==> Open(a, w.config, w.rows[id].domain, w.rows[id].stored, false).Ok?
    {
      SoundIff(a, w, id);
    }
  }

  /** `validateCustomOAuthProviderSecrets` passes exactly if every row that holds a value reads back at run time. */
  method ValidateSecrets(a: Aead, w: World, batchSize: nat, find: set<int> -> seq<int>) returns (ok: bool)
    requires batchSize >= 1 && forall s :: IsBatch(s, batchSize, find(s))
    ensures ok <==> forall id :: id in w.rows && id > 0 && w.rows[id].stored != [] ==>
                      Open(a, w.config, w.rows[id].domain, w.rows[id].stored, false).Ok?
  {
    hide Sound, Open;
    AllSoundIff(a, w);
    var lastID := 0;
    while true
      invariant lastID >= 0
      invariant forall id :: id in Candidates(w, 0) && id <= lastID ==> Sound(a, w, id)
      decreases Candidates(w, lastID)
    {
      var batch := find(Candidates(w, lastID));
      assert forall i :: 0 <= i < |batch| ==> batch[i] in Ids(batch);
      if |batch| == 0 {
        assert Candidates(w, lastID) == Ids([]) == {};
        assert forall id :: id in Candidates(w, 0) ==> id <= lastID || id in Candidates(w, lastID);
        assert forall id :: id in Candidates(w, 0) ==> Sound(a, w, id);
        return true;
      }
      for i := 0 to |batch|
        invariant forall j :: 0 <= j < i ==> Sound(a, w, batch[j])
      {
        if !Sound(a, w, batch[i]) {
          return false;
        }
      }
      BatchAdvances(Secrets(w), lastID, batch, batchSize);
      forall id | id in Candidates(w, 0) && id <= batch[|batch| - 1] ensures Sound(a, w, id) {
        if id > lastID {
          assert id in Candidates(w, lastID) && id !in Candidates(w, batch[|batch| - 1]);
        }
      }
      lastID := batch[|batch| - 1];
    }
  }

  lemma ApplyRewrapAtRow(a: Aead, w: World, id: int, rnd: Random)
    requires id in w.rows
    ensures var r := Rewrap(a, w.config, w.rows[id].domain, w.rows[id].stored, rnd);
            var w' := ApplyRewrap(a, w, id, rnd);
            id in w'.rows && (r.Ok? ==> w'.rows[id] == Row(w.rows[id].domain, r.value.0))
  {
    hide Rewrap, Parse, Unwrap;
  }

  /** What a run of rewraps leaves in a row: the rewrapped original. */
  lemma RewrapAllAtRow(a: Aead, w: World, ids: seq<int>, rnd: int -> Random, i: nat)
    requires Ascending(ids) && i < |ids| && ids[i] in w.rows
    ensures var id, w' := ids[i], Run(a, w, RewrapAll(ids, rnd));
            var r := Rewrap(a, w.config, w.rows[id].domain, w.rows[id].stored, rnd(id));
            id in w'.rows && (r.Ok? ==> w'.rows[id] == Row(w.rows[id].domain, r.value.0))
  {
    hide Rewrap, RewrapAll, Run, ApplyRewrap, Ascending;
    var before, id, rest := ids[..i], ids[i], ids[i + 1..];
    var w1 := Run(a, w, RewrapAll(before, rnd));
    RewrapAllFrame(a, w, before, rnd);
    AscendingIsDistinct(ids, i);
    RewrapAllSplits(a, w, before, id, rest, rnd);
    assert before + [id] + rest == ids;
    ApplyRewrapAtRow(a, w1, id, rnd(id));
    RewrapAllFrame(a, ApplyRewrap(a, w1, id, rnd(id)), rest, rnd);
  }

  lemma AscendingIsDistinct(ids: seq<int>, i: nat)
    requires Ascending(ids) && i < |ids|
    ensures ids[i] !in ids[..i] && ids[i] !in ids[i + 1..]
  {
  }

  lemma RewrapAllSplits(a: Aead, w: World, before: seq<int>, id: int, rest: seq<int>, rnd: int -> Random)
    requires id in Run(a, w, RewrapAll(before, rnd)).rows
    ensures Run(a, w, RewrapAll(before + [id] + rest, rnd))
         == Run(a, ApplyRewrap(a, Run(a, w, RewrapAll(before, rnd)), id, rnd(id)), RewrapAll(rest, rnd))
  {
    hide RewrapAll, Run, ApplyRewrap;
    RewrapAllConcat(a, w, before + [id], rest, rnd);
    RewrapAllConcat(a, w, before, [id], rnd);
    RewrapOne(a, Run(a, w, RewrapAll(before, rnd)), id, rnd);
  }

  /** For every store, readable or not: a migration that reports no fault passes the validation scan. */
  lemma MigratedStoreIsSound(a: Aead, w: World, done: seq<int>, rnd: int -> Random, like: Bytes -> bool)
    requires Correct(a) && ValidConfig(w.config) && w.config.enabled
    requires Ascending(done) && Ids(done) == Candidates(w, 0)
    requires forall id :: id in Candidates(w, 0) ==> Fault(a, w, id, rnd, like).None?
    ensures var w' := Run(a, w, RewrapAll(done, rnd));
            forall id :: id in w'.rows && id > 0 && w'.rows[id].stored != [] ==>
              Open(a, w'.config, w'.rows[id].domain, w'.rows[id].stored, false).Ok?
  {
    hide Correct, ValidConfig, Rewrap, Open, RewrapAll, Run;
    var w' := Run(a, w, RewrapAll(done, rnd));
    RewrapAllFrame(a, w, done, rnd);
    forall id | id in w'.rows && id > 0 && w'.rows[id].stored != []
      ensures Open(a, w'.config, w'.rows[id].domain, w'.rows[id].stored, false).Ok?
    {
      assert id in Ids(done);
      var i :| 0 <= i < |done| && done[i] == id;
      RewrapAllAtRow(a, w, done, rnd, i);
      RewrappedIsSound(a, w.config, w.rows[id].domain, w.rows[id].stored, rnd(id));
    }
  }

  lemma RewrappedIsSound(a: Aead, cfg: Config, domain: Bytes, stored: Bytes, rnd: Random)
    requires Correct(a) && ValidConfig(cfg) && cfg.enabled && stored != [] && Rewrap(a, cfg, domain, stored, rnd).Ok?
    ensures var after := Rewrap(a, cfg, domain, stored, rnd).value.0;
            IsEnvelope(after) && Open(a, cfg, domain, after, false).Ok?
  {
    hide Rewrap, Open, Correct;
    RewrapSucceedsIff(a, cfg, domain, stored, rnd);
    if cfg.keys != map[] {
      RewrapMovesToActiveKey(a, cfg, domain, stored, rnd, rnd);
    } else {
      ReadableWithoutKeys(a, cfg, domain, stored);
    }
  }

  // ----- What it means for a store that reads back

  /** A readable store migrates exactly if there is a key or nothing to seal, and no plaintext matches the update's pattern. */
  lemma SafeStoreMigratesIff(a: Aead, w: World, rnd: int -> Random, like: Bytes -> bool)
    requires Correct(a) && Safe(a, w) && w.config.enabled
    ensures (forall id :: id in Candidates(w, 0) ==> Fault(a, w, id, rnd, like).None?) 
       <==> && (w.config.keys != map[] || Candidates(w, 0) == {})
            && forall id :: id in Candidates(w, 0) && !IsEnvelope(w.rows[id].stored) ==> !like(w.rows[id].stored)
  {
    hide Rewrap, Open, Correct;
    forall id | id in Candidates(w, 0)
      ensures Fault(a, w, id, rnd, like).None?
         <==> w.config.keys != map[] && (!IsEnvelope(w.rows[id].stored) ==> !like(w.rows[id].stored))
    {
      RewrapSucceedsIff(a, w.config, w.rows[id].domain, w.rows[id].stored, rnd(id));
      if w.config.keys != map[] {
        RewrapMovesToActiveKey(a, w.config, w.rows[id].domain, w.rows[id].stored, rnd(id), rnd(id));
        PlainReadsWithoutKey(a, w.config, w.rows[id].domain, w.rows[id].stored);
      } else {
        ReadableWithoutKeys(a, w.config, w.rows[id].domain, w.rows[id].stored);
      }
    }
  }

  lemma PlainReadsWithoutKey(a: Aead, cfg: Config, domain: Bytes, stored: Bytes)
    requires Open(a, cfg, domain, stored, true).Ok?
    ensures !IsEnvelope(stored) ==> Open(a, cfg, domain, stored, true).value.keyID.None?
  {
  }

  lemma ReadableWithoutKeys(a: Aead, cfg: Config, domain: Bytes, stored: Bytes)
    requires cfg.keys == map[] && Open(a, cfg, domain, stored, true).Ok?
    ensures !IsEnvelope(stored) || stored == []
  {
  }

  const MIXED_CASE := Ascii("Naenc:x")

  /** A pattern that ignores case takes this plaintext for an envelope, and the migration stops there. */
  lemma MixedCasePlaintextStops(a: Aead, cfg: Config, domain: Bytes, rnd: int -> Random, like: Bytes -> bool)
    requires Correct(a) && ValidConfig(cfg) && cfg.enabled && cfg.keys != map[] && like(MIXED_CASE)
    ensures var w := World(cfg, map[1 := Row(domain, MIXED_CASE)], map[1 := MIXED_CASE], [], {});
            Initial(w) && !IsEnvelope(MIXED_CASE) && Fault(a, w, 1, rnd, like) == Some(NotUpdated)
  {
    hide Rewrap, Correct, ValidConfig;
    assert MIXED_CASE[0] != PREFIX[0];
    assert Open(a, cfg, domain, MIXED_CASE, true) == Ok(Opened(MIXED_CASE, None));
    RewrapMovesToActiveKey(a, cfg, domain, MIXED_CASE, rnd(1), rnd(1));
  }

  /** After a migration without a fault the old root keys may go, and every value reads back at run time. */
  lemma MigratedStoreNeedsActiveKeyOnly(a: Aead, w: World, done: seq<int>, rnd: int -> Random)
    requires Correct(a) && Safe(a, w) && w.config.enabled && w.config.keys != map[]
    requires (forall id :: id in w.rows ==> id > 0) && Ids(done) == Candidates(w, 0)
    ensures var w' := Run(a, w, RewrapAll(done, rnd));
            var cut := Config(true, w.config.activeKeyID, map[w.config.activeKeyID := w.config.keys[w.config.activeKeyID]]);
            && Legal(w', Reconfigure(cut)) && w'.rows.Keys == w.rows.Keys
            && forall id :: id in w'.rows ==> Readable(a, cut, w'.rows[id], w.plain[id], false)
  {
    hide Run, RewrapAll, Correct, Readable, Legal;
    assert forall id :: id in w.rows && w.rows[id].stored != [] ==> id in Ids(done);
    OldKeysMayBeDropped(a, w, done, rnd);
  }
}
