/** Batched scans by an id cursor: what a query with `ORDER BY id LIMIT n` answers, and how the cursor moves over it. */
module IdBatches {

  ghost predicate Ascending(xs: seq<int>) {
    forall i, j :: 0 <= i < j < |xs| ==> xs[i] < xs[j]
  }

  function Ids(xs: seq<int>): set<int> {
    set x | x in xs
  }

  /** The rows beyond the cursor. */
  function Beyond(s: set<int>, lastID: int): set<int> {
    set x | x in s && x > lastID
  }

  /** The smallest ids in order, and all of them if they do not fill the limit. */
  ghost predicate IsBatch(s: set<int>, limit: nat, xs: seq<int>) {
    && Ascending(xs) && Ids(xs) <= s
    && (forall x, y :: x in Ids(xs) && y in s - Ids(xs) ==> x < y)
    && |xs| <= limit && (|xs| < limit ==> Ids(xs) == s)
  }

  // ----- Every set has a batch

  ghost predicate IsLeast(s: set<int>, x: int) {
    x in s && forall y :: y in s ==> x <= y
  }

  lemma Pick<T>(s: set<T>) returns (x: T)
    requires s != {}
    ensures x in s
  {
    x :| x in s;
  }

  lemma {:induction false} LeastExists(s: set<int>)
    requires s != {}
    ensures exists x :: IsLeast(s, x)
  {
    var x := Pick(s);
    var rest := s - {x};
    assert s == rest + {x};
    if rest == {} {
      assert IsLeast(s, x);
    } else {
      LeastExists(rest);
      var y :| IsLeast(rest, y);
      assert IsLeast(s, if x <= y then x else y);
    }
  }

  ghost function Least(s: set<int>): (x: int)
    requires s != {}
    ensures IsLeast(s, x)
  {
    LeastExists(s);
    var x :| IsLeast(s, x);
    x
  }

  ghost function Smallest(s: set<int>, limit: nat): seq<int> {
    if s == {} || limit == 0 then [] else [Least(s)] + Smallest(s - {Least(s)}, limit - 1)
  }

  lemma ConsIsBatch(s: set<int>, limit: nat, x: int, rest: seq<int>)
    requires x in s && (forall y :: y in s - {x} ==> x < y) && IsBatch(s - {x}, limit, rest)
    ensures IsBatch(s, limit + 1, [x] + rest)
  {
    AscendingConcat([x], rest) by {
      assert Ids([x]) == {x};
    }
    assert Ids([x] + rest) == {x} + Ids(rest);
    assert s - Ids([x] + rest) == (s - {x}) - Ids(rest);
  }

  /** Every set of ids has such an answer, for every limit. */
  lemma {:induction false} SmallestIsBatch(s: set<int>, limit: nat)
    ensures IsBatch(s, limit, Smallest(s, limit))
  {
    if s != {} && limit > 0 {
      SmallestIsBatch(s - {Least(s)}, limit - 1);
      ConsIsBatch(s, limit - 1, Least(s), Smallest(s - {Least(s)}, limit - 1));
    }
  }

  // ----- Moving the cursor

  /** Moving the cursor to the last id of a batch removes exactly the batch from what lies beyond it. */
  lemma BatchAdvances(s: set<int>, lastID: int, batch: seq<int>, limit: nat)
    requires batch != [] && IsBatch(Beyond(s, lastID), limit, batch)
    ensures var next := batch[|batch| - 1];
            && next > lastID && next in s
            && Beyond(s, next) == Beyond(s, lastID) - Ids(batch) && Beyond(s, next) < Beyond(s, lastID)
            && forall x :: x in Ids(batch) ==> lastID < x <= next
  {
    var next := batch[|batch| - 1];
    assert next in Ids(batch);
    assert forall x :: x in Beyond(s, lastID) - Ids(batch) ==> next < x;
    forall x | x in Beyond(s, next) ensures x in Beyond(s, lastID) && x !in Ids(batch) {
      assert x > next;
    }
    assert next in Beyond(s, lastID) && next !in Beyond(s, next);
  }

  lemma AscendingConcat(xs: seq<int>, ys: seq<int>)
    requires Ascending(xs) && Ascending(ys) && forall x, y :: x in Ids(xs) && y in Ids(ys) ==> x < y
    ensures Ascending(xs + ys) && Ids(xs + ys) == Ids(xs) + Ids(ys)
  {
    var zs := xs + ys;
    forall i, j | 0 <= i < j < |zs| ensures zs[i] < zs[j] {
      if i < |xs| <= j {
        assert zs[i] in Ids(xs) && zs[j] in Ids(ys);
      }
    }
  }

  lemma {:induction false} DistinctCount(xs: seq<int>)
    requires Ascending(xs)
    ensures |Ids(xs)| == |xs|
  {
    if xs != [] {
      var front, x := xs[..|xs| - 1], xs[|xs| - 1];
      DistinctCount(front);
      assert xs == front + [x];
      assert Ids(xs) == Ids(front) + {x} && x !in Ids(front);
    } else {
      assert Ids(xs) == {};
    }
  }
}
