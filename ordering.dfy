/**
 * The `$sort` and `.sort()` stages: an ordering given as a "may come before"
 * relation on documents, and one sort that rearranges a sequence so every
 * document may come before the next. Nothing is said about the order of
 * documents the relation does not separate: the store's sort is not stable.
 */
module Ordering {

  /** Any two documents can be ordered one way or the other. */
  ghost predicate Total<T(!new)>(before: (T, T) -> bool)
  {
    forall a, b :: before(a, b) || before(b, a)
  }

  ghost predicate Transitive<T(!new)>(before: (T, T) -> bool)
  {
    forall a, b, c :: before(a, b) && before(b, c) ==> before(a, c)
  }

  /** Each document may come before the one after it. */
  predicate Sorted<T>(s: seq<T>, before: (T, T) -> bool)
  {
    forall i :: 0 <= i < |s| - 1 ==> before(s[i], s[i + 1])
  }

  /** Places `x` in front of the first document it may come before. */
  function Insert<T>(x: T, s: seq<T>, before: (T, T) -> bool): (r: seq<T>)
    ensures |r| == |s| + 1
    ensures multiset(r) == multiset(s) + multiset{x}
    ensures r[0] == x || (s != [] && r[0] == s[0])
  {
    if s == [] || before(x, s[0]) then [x] + s
    else
      assert s == [s[0]] + s[1..];
      [s[0]] + Insert(x, s[1..], before)
  }

  /** The documents of `s`, rearranged. */
  function Sort<T>(s: seq<T>, before: (T, T) -> bool): (r: seq<T>)
    ensures |r| == |s|
    ensures multiset(r) == multiset(s)
  {
    if s == [] then []
    else
      assert s == [s[0]] + s[1..];
      Insert(s[0], Sort(s[1..], before), before)
  }

  /** The first `n` documents, or all of them when there are fewer (`$limit`). */
  function Limit<T>(s: seq<T>, n: nat): (r: seq<T>)
    ensures |r| == if |s| < n then |s| else n
    ensures r == s[..|r|]
  {
    if |s| < n then s else s[..n]
  }

  lemma {:induction false} InsertSorted<T(!new)>(x: T, s: seq<T>, before: (T, T) -> bool)
    requires Total(before) && Sorted(s, before)
    ensures Sorted(Insert(x, s, before), before)
  {
    if s != [] && !before(x, s[0]) {
      InsertSorted(x, s[1..], before);
      var rest := Insert(x, s[1..], before);
      assert before(s[0], rest[0]) by {
        if rest[0] != x {
          assert rest[0] == s[1];
        }
      }
      var r := [s[0]] + rest;
      forall i | 0 <= i < |r| - 1
        ensures before(r[i], r[i + 1])
      {
        if i > 0 {
          assert r[i] == rest[i - 1] && r[i + 1] == rest[i];
        }
      }
    }
  }

  /** Under a total ordering the sort's result is sorted. */
  lemma {:induction false} SortSorted<T(!new)>(s: seq<T>, before: (T, T) -> bool)
    requires Total(before)
    ensures Sorted(Sort(s, before), before)
  {
    if s != [] {
      SortSorted(s[1..], before);
      InsertSorted(s[0], Sort(s[1..], before), before);
    }
  }

  /** Under a transitive ordering a sorted sequence is ordered pairwise, not just between neighbours. */
  lemma {:induction false} SortedPairwise<T(!new)>(s: seq<T>, before: (T, T) -> bool, i: nat, j: nat)
    requires Transitive(before) && Sorted(s, before) && i < j < |s|
    ensures before(s[i], s[j])
    decreases j - i
  {
    if i + 1 < j {
      SortedPairwise(s, before, i + 1, j);
    }
  }

  /**
   * Sorting and keeping the first `n` keeps the best documents: whatever was
   * dropped may come after everything that was kept.
   */
  lemma LimitKeepsBest<T(!new)>(s: seq<T>, before: (T, T) -> bool, n: nat, x: T)
    requires Total(before) && Transitive(before) && x in s
    ensures x in Limit(Sort(s, before), n) || forall y :: y in Limit(Sort(s, before), n) ==> before(y, x)
  {
    var sorted := Sort(s, before);
    var kept := Limit(sorted, n);
    assert x in multiset(sorted);
    var j :| 0 <= j < |sorted| && sorted[j] == x;
    if j >= |kept| {
      SortSorted(s, before);
      forall y | y in kept
        ensures before(y, x)
      {
        var i :| 0 <= i < |kept| && kept[i] == y;
        SortedPairwise(sorted, before, i, j);
      }
    } else {
      assert kept[j] == x;
    }
  }

  /** Sorting three documents: the second goes first when the first may not come before it. */
  lemma SortThreeHead<T>(a: T, b: T, c: T, before: (T, T) -> bool)
    requires before(b, c) && !before(a, b)
    ensures Sort([a, b, c], before) == [b] + Insert(a, [c], before)
  {
    SortTwo(b, c, before);
    assert [a, b, c][1..] == [b, c];
    InsertPast(a, [b, c], before);
    assert [b, c][1..] == [c];
  }

  /** Sorting three documents where the first belongs between the other two. */
  lemma SortThreeMiddle<T>(a: T, b: T, c: T, before: (T, T) -> bool)
    requires before(b, c) && !before(a, b) && before(a, c)
    ensures Sort([a, b, c], before) == [b, a, c]
  {
    SortThreeHead(a, b, c, before);
    InsertIntoOne(a, c, before);
    PrependOne(b, [a, c]);
  }

  /** Sorting three documents where the first belongs last. */
  lemma SortThreeLast<T>(a: T, b: T, c: T, before: (T, T) -> bool)
    requires before(b, c) && !before(a, b) && !before(a, c)
    ensures Sort([a, b, c], before) == [b, c, a]
  {
    SortThreeHead(a, b, c, before);
    InsertIntoOne(a, c, before);
    PrependOne(b, [c, a]);
  }

  /** Inserting into a single document puts the new one in front of it or after it. */
  lemma InsertIntoOne<T>(a: T, c: T, before: (T, T) -> bool)
    ensures before(a, c) ==> Insert(a, [c], before) == [a, c]
    ensures !before(a, c) ==> Insert(a, [c], before) == [c, a]
  {
    assert [c][1..] == [];
    assert Insert(a, [], before) == [a];
  }

  /** Sorting two documents when the first may come before the second keeps them in place. */
  lemma SortTwo<T>(b: T, c: T, before: (T, T) -> bool)
    requires before(b, c)
    ensures Sort([b, c], before) == [b, c]
  {
    assert [b, c][1..] == [c] && [c][1..] == [];
    assert Sort([c], before) == [c];
    InsertFront(b, [c], before);
    assert [b] + [c] == [b, c];
  }

  /** Inserting in front of a document the new one may come before. */
  lemma InsertFront<T>(x: T, s: seq<T>, before: (T, T) -> bool)
    requires s != [] && before(x, s[0])
    ensures Insert(x, s, before) == [x] + s
  {
  }

  /** Inserting past a document the new one may not come before. */
  lemma InsertPast<T>(x: T, s: seq<T>, before: (T, T) -> bool)
    requires s != [] && !before(x, s[0])
    ensures Insert(x, s, before) == [s[0]] + Insert(x, s[1..], before)
  {
  }

  /** Prepending to a pair gives the triple. */
  lemma PrependOne<T>(b: T, s: seq<T>)
    requires |s| == 2
    ensures [b] + s == [b, s[0], s[1]]
  {
  }
}
