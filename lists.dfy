/** Facts about lists that the form rules and the filter toggles rely on:
    duplicate-freedom, the set of a list's elements, and `filter` by value. */
module Lists {

  predicate Distinct<T(==,!new)>(xs: seq<T>) {
    forall i, j :: 0 <= i < j < |xs| ==> xs[i] != xs[j]
  }

  /** `new Set(xs)`: the set of the list's elements. */
  function Elements<T(!new)>(xs: seq<T>): (s: set<T>)
    ensures forall x :: x in s <==> x in xs
  {
    set x | x in xs
  }

  /** `xs.filter((y) => y !== x)`: every occurrence of `x` removed, the rest
      kept in order. */
  function RemoveAll<T(==,!new)>(xs: seq<T>, x: T): (r: seq<T>)
    ensures |r| <= |xs| && x !in r
    ensures x in xs ==> |r| < |xs|
    ensures Distinct(xs) ==> Distinct(r)
    ensures forall y :: y != x ==> (y in r <==> y in xs)
    ensures forall y :: y != x ==> multiset(r)[y] == multiset(xs)[y]
    ensures x !in xs ==> r == xs
  {
    if xs == [] then []
    else
      assert xs == [xs[0]] + xs[1..];
      var rest := RemoveAll(xs[1..], x);
      if xs[0] == x then rest
      else
        assert Distinct(xs) ==> xs[0] !in xs[1..] by { DistinctHeadNotInTail(xs); }
        DistinctCons(xs[0], rest);
        [xs[0]] + rest
  }

  /** Appending elements that are not `x` commutes with removing `x`. */
  lemma {:induction false} RemoveAllAppend<T(!new)>(xs: seq<T>, ys: seq<T>, x: T)
    ensures RemoveAll(xs + ys, x) == RemoveAll(xs, x) + RemoveAll(ys, x)
    decreases |xs|
  {
    if xs != [] {
      RemoveAllAppend(xs[1..], ys, x);
      RemoveAllAppendStep(xs, ys, x);
    } else {
      assert xs + ys == ys;
    }
  }

  lemma RemoveAllAppendStep<T(!new)>(xs: seq<T>, ys: seq<T>, x: T)
    requires xs != [] && RemoveAll(xs[1..] + ys, x) == RemoveAll(xs[1..], x) + RemoveAll(ys, x)
    ensures RemoveAll(xs + ys, x) == RemoveAll(xs, x) + RemoveAll(ys, x)
  {
    var keep := if xs[0] == x then [] else [xs[0]];
    AppendHeadTail(xs, ys);
    RemoveAllCons(xs + ys, x);
    RemoveAllCons(xs, x);
    Regroup(keep, RemoveAll(xs[1..], x), RemoveAll(ys, x));
  }

  /** One step of the filter: the head is kept exactly when it is not `x`. */
  lemma RemoveAllCons<T(!new)>(xs: seq<T>, x: T)
    requires xs != []
    ensures RemoveAll(xs, x) == (if xs[0] == x then [] else [xs[0]]) + RemoveAll(xs[1..], x)
  {
  }

  lemma DistinctCons<T(!new)>(x: T, xs: seq<T>)
    ensures Distinct([x] + xs) <==> x !in xs && Distinct(xs)
  {
    var ys := [x] + xs;
    assert ys[1..] == xs;
    if x !in xs && Distinct(xs) {
      forall i, j | 0 <= i < j < |ys| ensures ys[i] != ys[j] {
        assert ys[j] == xs[j - 1];
        if i > 0 { assert ys[i] == xs[i - 1]; }
      }
    }
    if Distinct(ys) {
      forall k | 0 <= k < |xs| ensures xs[k] != x { assert ys[0] == x && xs[k] == ys[k + 1]; }
      forall i, j | 0 <= i < j < |xs| ensures xs[i] != xs[j] { assert xs[i] == ys[i + 1] && xs[j] == ys[j + 1]; }
    }
  }

  lemma DistinctHeadNotInTail<T(!new)>(xs: seq<T>)
    requires xs != []
    ensures Distinct(xs) ==> xs[0] !in xs[1..] && Distinct(xs[1..])
  {
    DistinctCons(xs[0], xs[1..]);
    assert [xs[0]] + xs[1..] == xs;
  }

  lemma {:induction false} DistinctAppend<T(!new)>(xs: seq<T>, ys: seq<T>)
    requires Distinct(xs) && Distinct(ys)
    requires forall y :: y in ys ==> y !in xs
    ensures Distinct(xs + ys)
  {
    var zs := xs + ys;
    forall i, j | 0 <= i < j < |zs| ensures zs[i] != zs[j] {
      if j < |xs| {
        assert zs[i] == xs[i] && zs[j] == xs[j];
      } else if i >= |xs| {
        assert zs[i] == ys[i - |xs|] && zs[j] == ys[j - |xs|];
      } else {
        assert zs[i] == xs[i] && zs[j] == ys[j - |xs|];
        assert ys[j - |xs|] in ys;
      }
    }
  }

  /** `xs.filter((y) => !ys.includes(y))`: every element of `ys` removed,
      the rest kept in order. */
  function RemoveEach<T(==,!new)>(xs: seq<T>, ys: seq<T>): (r: seq<T>)
    ensures forall y :: y in ys ==> y !in r
    ensures forall y :: y !in ys ==> multiset(r)[y] == multiset(xs)[y]
    ensures forall y :: y in r <==> y in xs && y !in ys
    ensures Distinct(xs) ==> Distinct(r)
  {
    if xs == [] then []
    else
      assert xs == [xs[0]] + xs[1..];
      var rest := RemoveEach(xs[1..], ys);
      if xs[0] in ys then rest
      else
        assert Distinct(xs) ==> xs[0] !in xs[1..] by { DistinctHeadNotInTail(xs); }
        DistinctCons(xs[0], rest);
        [xs[0]] + rest
  }

  /** The filter keeps list order: filtering a concatenation filters each
      part and concatenates the results, and a single element is kept exactly
      when it is not listed. Together these fix every kept element's position. */
  lemma {:induction false} RemoveEachAppend<T(!new)>(xs: seq<T>, zs: seq<T>, ys: seq<T>)
    ensures RemoveEach(xs + zs, ys) == RemoveEach(xs, ys) + RemoveEach(zs, ys)
    decreases |xs|
  {
    if xs != [] {
      RemoveEachAppend(xs[1..], zs, ys);
      RemoveEachAppendStep(xs, zs, ys);
    } else {
      RemoveEachAppendNil(xs, zs, ys);
    }
  }

  lemma RemoveEachAppendNil<T(!new)>(xs: seq<T>, zs: seq<T>, ys: seq<T>)
    requires xs == []
    ensures RemoveEach(xs + zs, ys) == RemoveEach(xs, ys) + RemoveEach(zs, ys)
  {
    assert xs + zs == zs;
    var r := RemoveEach(zs, ys);
    assert RemoveEach(xs, ys) == [];
    assert [] + r == r;
  }

  lemma RemoveEachAppendStep<T(!new)>(xs: seq<T>, zs: seq<T>, ys: seq<T>)
    requires xs != [] && RemoveEach(xs[1..] + zs, ys) == RemoveEach(xs[1..], ys) + RemoveEach(zs, ys)
    ensures RemoveEach(xs + zs, ys) == RemoveEach(xs, ys) + RemoveEach(zs, ys)
  {
    var keep := if xs[0] in ys then [] else [xs[0]];
    AppendHeadTail(xs, zs);
    RemoveEachCons(xs + zs, ys);
    RemoveEachCons(xs, ys);
    Regroup(keep, RemoveEach(xs[1..], ys), RemoveEach(zs, ys));
  }

  /** One step of the filter: the head is kept exactly when it is not listed. */
  lemma RemoveEachCons<T(!new)>(xs: seq<T>, ys: seq<T>)
    requires xs != []
    ensures RemoveEach(xs, ys) == (if xs[0] in ys then [] else [xs[0]]) + RemoveEach(xs[1..], ys)
  {
  }

  lemma RemoveEachSingle<T(!new)>(x: T, ys: seq<T>)
    ensures RemoveEach([x], ys) == if x in ys then [] else [x]
  {
    assert [x][1..] == [];
  }

  /** A list is duplicate-free exactly when its set of elements is as large
      as the list, which is how `new Set(...).size` detects duplicates. */
  lemma {:induction false} DistinctIffElementsSize<T(!new)>(xs: seq<T>)
    ensures Distinct(xs) <==> |Elements(xs)| == |xs|
    decreases |xs|
  {
    if xs != [] {
      var rest := xs[1..];
      DistinctIffElementsSize(rest);
      ElementsSizeBound(rest);
      assert Elements(xs) == {xs[0]} + Elements(rest);
      if xs[0] in rest {
        assert Elements(xs) == Elements(rest);
        var k :| 0 <= k < |rest| && rest[k] == xs[0];
        assert xs[0] == xs[k + 1];
      } else {
        assert Distinct(xs) <==> Distinct(rest);
      }
    }
  }

  lemma {:induction false} ElementsSizeBound<T(!new)>(xs: seq<T>)
    ensures |Elements(xs)| <= |xs|
    decreases |xs|
  {
    if xs != [] {
      ElementsSizeBound(xs[1..]);
      assert Elements(xs) == {xs[0]} + Elements(xs[1..]);
    }
  }

  /** In a duplicate-free list every element occurs exactly once. */
  lemma {:induction false} DistinctOccursOnce<T(!new)>(xs: seq<T>, x: T)
    requires Distinct(xs) && x in xs
    ensures multiset(xs)[x] == 1
    decreases |xs|
  {
    assert xs == [xs[0]] + xs[1..];
    if xs[0] == x {
      assert x !in xs[1..] by {
        forall k | 0 <= k < |xs[1..]| ensures xs[1..][k] != x {
          assert xs[1..][k] == xs[k + 1];
        }
      }
    } else {
      DistinctOccursOnce(xs[1..], x);
    }
  }

  lemma Regroup<T>(k: seq<T>, x: seq<T>, y: seq<T>)
    ensures k + (x + y) == k + x + y
  {
  }

  /** The head and the tail of a concatenation whose first part is not empty. */
  lemma AppendHeadTail<T>(a: seq<T>, b: seq<T>)
    requires a != []
    ensures (a + b)[0] == a[0] && (a + b)[1..] == a[1..] + b
  {
  }
}
