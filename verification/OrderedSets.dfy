/** Lists without repeats, as ordered sets: `lo.Uniq` and `lo.Filter` over any element type. */
module OrderedSets {

  predicate NoDup<T(==)>(xs: seq<T>) {
    forall i, j :: 0 <= i < j < |xs| ==> xs[i] != xs[j]
  }

  function Set<T>(xs: seq<T>): set<T> {
    set x | x in xs
  }

  lemma SetAppend<T>(xs: seq<T>, x: T)
    ensures Set(xs + [x]) == Set(xs) + {x}
  {
  }

  lemma SetConcat<T>(xs: seq<T>, ys: seq<T>)
    ensures Set(xs + ys) == Set(xs) + Set(ys)
  {
  }

  lemma SetFront<T>(xs: seq<T>)
    requires xs != []
    ensures Set(xs) == Set(xs[..|xs| - 1]) + {xs[|xs| - 1]}
  {
    SetAppend(xs[..|xs| - 1], xs[|xs| - 1]);
    assert xs == xs[..|xs| - 1] + [xs[|xs| - 1]];
  }

  /** The elements that belong to a set, in order. */
  function Within<T>(xs: seq<T>, s: set<T>): seq<T> {
    if xs == [] then []
    else
      var r, x := Within(xs[..|xs| - 1], s), xs[|xs| - 1];
      if x in s then r + [x] else r
  }

  /** The elements that do not belong to a set, in order. */
  function Without<T>(xs: seq<T>, s: set<T>): seq<T> {
    Within(xs, Set(xs) - s)
  }

  /** First occurrences, in order. */
  function Uniq<T(==)>(xs: seq<T>): seq<T> {
    if xs == [] then []
    else
      var r, x := Uniq(xs[..|xs| - 1]), xs[|xs| - 1];
      if x in r then r else r + [x]
  }

  lemma {:induction false} WithinFacts<T>(xs: seq<T>, s: set<T>)
    ensures Set(Within(xs, s)) == Set(xs) * s
    ensures NoDup(xs) ==> NoDup(Within(xs, s))
  {
    if xs != [] {
      var front, x := xs[..|xs| - 1], xs[|xs| - 1];
      WithinFacts(front, s);
      SetFront(xs);
      SetAppend(Within(front, s), x);
      assert x in Within(front, s) ==> x in Set(Within(front, s)) && x in front;
    }
  }

  /** Whatever stands before an element in the first list stands before it in the second. */
  ghost predicate InOrderOf<T(!new)>(xs: seq<T>, ys: seq<T>) {
    forall i, j :: 0 <= i < j < |xs| ==> exists b :: 0 <= b < |ys| && ys[b] == xs[j] && xs[i] in ys[..b]
  }

  lemma {:induction false} WithinKeepsOrder<T(!new)>(xs: seq<T>, s: set<T>)
    ensures InOrderOf(Within(xs, s), xs)
  {
    if xs != [] {
      var front, last := xs[..|xs| - 1], |xs| - 1;
      var f, r := Within(front, s), Within(xs, s);
      WithinKeepsOrder(front, s);
      WithinFacts(front, s);
      forall i, j | 0 <= i < j < |r| ensures exists b :: 0 <= b < |xs| && xs[b] == r[j] && r[i] in xs[..b] {
        if j < |f| {
          var b :| 0 <= b < |front| && front[b] == f[j] && f[i] in front[..b];
          assert front[..b] == xs[..b] && xs[b] == r[j];
        } else {
          assert f[i] in Set(f) && xs[last] == r[j] && xs[..last] == front;
        }
      }
    }
  }

  lemma WithoutKeepsOrder<T(!new)>(xs: seq<T>, s: set<T>)
    ensures InOrderOf(Without(xs, s), xs)
  {
    WithinKeepsOrder(xs, Set(xs) - s);
  }

  /** Keeping first occurrences: each element is taken at the first place it stands, after all earlier results. */
  lemma {:induction false} UniqTakesFirst<T(!new)>(xs: seq<T>, j: nat)
    requires j < |Uniq(xs)|
    ensures exists b :: 0 <= b < |xs| && xs[b] == Uniq(xs)[j] && Uniq(xs)[j] !in xs[..b]
                        && forall i :: 0 <= i < j ==> Uniq(xs)[i] in xs[..b]
  {
    var front, last := xs[..|xs| - 1], |xs| - 1;
    var f := Uniq(front);
    UniqFacts(front);
    assert forall x :: x in f <==> x in Set(f);
    assert forall x :: x in front <==> x in Set(front);
    if j < |f| {
      UniqTakesFirst(front, j);
      var b :| 0 <= b < |front| && front[b] == f[j] && f[j] !in front[..b] && forall i :: 0 <= i < j ==> f[i] in front[..b];
      assert front[..b] == xs[..b] && xs[b] == f[j];
    } else {
      assert xs[..last] == front && xs[last] == Uniq(xs)[j];
    }
  }

  lemma WithoutFacts<T>(xs: seq<T>, s: set<T>)
    ensures Set(Without(xs, s)) == Set(xs) - s
    ensures NoDup(xs) ==> NoDup(Without(xs, s))
  {
    WithinFacts(xs, Set(xs) - s);
  }

  lemma {:induction false} UniqFacts<T>(xs: seq<T>)
    ensures NoDup(Uniq(xs)) && Set(Uniq(xs)) == Set(xs)
  {
    if xs != [] {
      var front, x := xs[..|xs| - 1], xs[|xs| - 1];
      UniqFacts(front);
      SetFront(xs);
      SetAppend(Uniq(front), x);
      assert x in Uniq(front) <==> x in Set(Uniq(front));
    }
  }

  lemma NoDupConcat<T>(xs: seq<T>, ys: seq<T>)
    requires NoDup(xs) && NoDup(ys) && Set(xs) !! Set(ys)
    ensures NoDup(xs + ys)
  {
    var zs := xs + ys;
    forall i, j | 0 <= i < j < |zs| ensures zs[i] != zs[j] {
      if i < |xs| <= j {
        assert zs[i] in Set(xs) && zs[j] in Set(ys);
      }
    }
  }

  /** Lists without repeats are fixed points. */
  lemma {:induction false} UniqOfDistinct<T>(xs: seq<T>)
    requires NoDup(xs)
    ensures Uniq(xs) == xs
  {
    if xs != [] {
      UniqOfDistinct(xs[..|xs| - 1]);
      assert xs == xs[..|xs| - 1] + [xs[|xs| - 1]];
    }
  }

  lemma {:induction false} WithinAgree<T>(xs: seq<T>, s: set<T>, t: set<T>)
    requires forall x :: x in xs ==> (x in s <==> x in t)
    ensures Within(xs, s) == Within(xs, t)
  {
    if xs != [] {
      assert forall x :: x in xs[..|xs| - 1] ==> x in xs;
      WithinAgree(xs[..|xs| - 1], s, t);
    }
  }

  lemma {:induction false} WithinAll<T>(xs: seq<T>, s: set<T>)
    requires Set(xs) <= s
    ensures Within(xs, s) == xs
  {
    if xs != [] {
      SetFront(xs);
      WithinAll(xs[..|xs| - 1], s);
      assert xs == xs[..|xs| - 1] + [xs[|xs| - 1]];
    }
  }

  lemma WithinAppend<T>(xs: seq<T>, x: T, s: set<T>)
    ensures Within(xs + [x], s) == if x in s then Within(xs, s) + [x] else Within(xs, s)
  {
    var all := xs + [x];
    assert all[..|all| - 1] == xs;
  }

  lemma {:induction false} WithinConcat<T>(xs: seq<T>, ys: seq<T>, s: set<T>)
    ensures Within(xs + ys, s) == Within(xs, s) + Within(ys, s)
  {
    if ys == [] {
      assert xs + ys == xs;
    } else {
      var front, y := ys[..|ys| - 1], ys[|ys| - 1];
      assert xs + ys == (xs + front) + [y];
      WithinAppend(xs + front, y, s);
      WithinConcat(xs, front, s);
    }
  }

  lemma WithoutAppend<T>(xs: seq<T>, x: T, s: set<T>)
    ensures Without(xs + [x], s) == if x in s then Without(xs, s) else Without(xs, s) + [x]
  {
    SetAppend(xs, x);
    WithinAppend(xs, x, Set(xs + [x]) - s);
    WithinAgree(xs, Set(xs + [x]) - s, Set(xs) - s);
  }

  lemma UniqAppend<T>(xs: seq<T>, x: T)
    ensures Uniq(xs + [x]) == if x in xs then Uniq(xs) else Uniq(xs) + [x]
  {
    var all := xs + [x];
    assert all[..|all| - 1] == xs;
    UniqFacts(xs);
    assert x in Uniq(xs) <==> x in Set(Uniq(xs));
  }

  /** De-duplicating a concatenation is appending what the first list lacks. */
  lemma {:induction false} UniqConcat<T>(xs: seq<T>, ys: seq<T>)
    ensures Uniq(xs + ys) == Uniq(xs) + Without(Uniq(ys), Set(xs))
  {
    if ys == [] {
      assert xs + ys == xs;
    } else {
      var front, y := ys[..|ys| - 1], ys[|ys| - 1];
      assert ys == front + [y] && xs + ys == (xs + front) + [y];
      UniqConcat(xs, front);
      UniqConcatStep(xs, front, y);
    }
  }

  lemma UniqConcatStep<T>(xs: seq<T>, front: seq<T>, y: T)
    requires Uniq(xs + front) == Uniq(xs) + Without(Uniq(front), Set(xs))
    ensures Uniq((xs + front) + [y]) == Uniq(xs) + Without(Uniq(front + [y]), Set(xs))
  {
    hide Uniq, Without;
    var u, f := Uniq(xs), Uniq(front);
    assert y in xs + front <==> y in xs || y in front;
    UniqAppend(xs + front, y);
    UniqAppend(front, y);
    if y !in front {
      WithoutAppend(f, y, Set(xs));
      var w := Without(f, Set(xs));
      assert (u + w) + [y] == u + (w + [y]);
    }
  }

  // ----- Loops with a seen-set

  /** A Go map with empty values, filled from a list. */
  method Collect<T(==)>(xs: seq<T>) returns (seen: set<T>)
    ensures seen == Set(xs)
  {
    seen := {};
    for i := 0 to |xs|
      invariant seen == Set(xs[..i])
    {
      assert xs[..i + 1] == xs[..i] + [xs[i]];
      seen := seen + {xs[i]};
    }
    assert xs[..|xs|] == xs;
  }

  /** Appends the elements of the second list that have not been seen. */
  method AppendUnseen<T(==)>(start: seq<T>, xs: seq<T>) returns (all: seq<T>)
    requires NoDup(xs)
    ensures all == start + Without(xs, Set(start))
  {
    all := start;
    var seen := Collect(start);
    for i := 0 to |xs|
      invariant seen == Set(start) + Set(xs[..i])
      invariant all == start + Without(xs[..i], Set(start))
    {
      assert xs[..i + 1] == xs[..i] + [xs[i]];
      WithoutAppend(xs[..i], xs[i], Set(start));
      SetAppend(xs[..i], xs[i]);
      if xs[i] in seen {
        assert xs[i] !in xs[..i];
        continue;
      }
      seen := seen + {xs[i]};
      all := all + [xs[i]];
    }
    assert xs[..|xs|] == xs;
  }
}
