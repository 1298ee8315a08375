/**
 * The sequence operators the result builder composes (LINQ's `Any`, `Where`,
 * `OrderBy`, `Skip` and `Take`), over a finite sequence standing in for the
 * queryable source.
 */
module Linq {

  /** `Enumerable.Any`: some element satisfies `p`. */
  function Any<T>(s: seq<T>, p: T -> bool): (r: bool)
    ensures r <==> exists i :: 0 <= i < |s| && p(s[i])
  {
    if s == [] then false
    else
      var rest := Any(s[1..], p);
      assert rest ==> exists i :: 1 <= i < |s| && p(s[i]) by {
        if rest { var i :| 0 <= i < |s[1..]| && p(s[1..][i]); assert p(s[i + 1]); }
      }
      p(s[0]) || rest
  }

  /** `Enumerable.Where`: keeps the elements satisfying `p`, in their order. */
  function Where<T>(s: seq<T>, p: T -> bool): (r: seq<T>)
    ensures |r| <= |s|
    ensures forall i :: 0 <= i < |r| ==> r[i] in s && p(r[i])
  {
    if s == [] then []
    else
      assert s == [s[0]] + s[1..];
      var rest := Where(s[1..], p);
      if p(s[0]) then [s[0]] + rest else rest
  }

  /** `x` goes before `y` when ordering by a key in the given direction (ties allowed). */
  predicate InOrder(x: int, y: int, ascending: bool) {
    if ascending then x <= y else y <= x
  }

  /** The keys of `s` never go against the direction. */
  ghost predicate Sorted<T>(s: seq<T>, key: T -> int, ascending: bool) {
    forall i, j :: 0 <= i < j < |s| ==> InOrder(key(s[i]), key(s[j]), ascending)
  }

  /** Puts `x` in front of the first element it may precede, so `x` stays ahead of its ties. */
  function Insert<T>(x: T, s: seq<T>, key: T -> int, ascending: bool): seq<T> {
    if s == [] || InOrder(key(x), key(s[0]), ascending) then [x] + s
    else [s[0]] + Insert(x, s[1..], key, ascending)
  }

  /** Inserting adds exactly the one element. */
  lemma {:induction false} InsertPermutes<T>(x: T, s: seq<T>, key: T -> int, ascending: bool)
    ensures multiset(Insert(x, s, key, ascending)) == multiset(s) + multiset{x}
  {
    if s != [] && !InOrder(key(x), key(s[0]), ascending) {
      InsertPermutes(x, s[1..], key, ascending);
      assert s == [s[0]] + s[1..];
    }
  }

  /** The head of a sorted sequence may precede everything an insertion into its tail produces. */
  lemma InsertHeadFirst<T>(x: T, s: seq<T>, key: T -> int, ascending: bool)
    requires Sorted(s, key, ascending) && s != [] && !InOrder(key(x), key(s[0]), ascending)
    ensures forall j :: 0 <= j < |Insert(x, s[1..], key, ascending)| ==>
      InOrder(key(s[0]), key(Insert(x, s[1..], key, ascending)[j]), ascending)
  {
    var rest := Insert(x, s[1..], key, ascending);
    InsertPermutes(x, s[1..], key, ascending);
    forall j | 0 <= j < |rest|
      ensures InOrder(key(s[0]), key(rest[j]), ascending)
    {
      assert rest[j] in multiset(rest);
      if rest[j] != x {
        assert rest[j] in multiset(s[1..]);
        var k :| 0 <= k < |s[1..]| && s[1..][k] == rest[j];
        assert s[k + 1] == rest[j];
      }
    }
  }

  /** Inserting into a sorted sequence keeps it sorted. */
  lemma {:induction false} InsertSorted<T>(x: T, s: seq<T>, key: T -> int, ascending: bool)
    requires Sorted(s, key, ascending)
    ensures Sorted(Insert(x, s, key, ascending), key, ascending)
  {
    if s != [] && !InOrder(key(x), key(s[0]), ascending) {
      InsertSorted(x, s[1..], key, ascending);
      InsertHeadFirst(x, s, key, ascending);
    }
  }

  /** `OrderBy` / `OrderByDescending` on a key, stable (ties keep their order). */
  function OrderBy<T>(s: seq<T>, key: T -> int, ascending: bool): seq<T> {
    if s == [] then []
    else Insert(s[0], OrderBy(s[1..], key, ascending), key, ascending)
  }

  /** `OrderBy` only rearranges: its result is a permutation of its input. */
  lemma {:induction false} OrderByPermutes<T>(s: seq<T>, key: T -> int, ascending: bool)
    ensures multiset(OrderBy(s, key, ascending)) == multiset(s)
  {
    if s != [] {
      OrderByPermutes(s[1..], key, ascending);
      InsertPermutes(s[0], OrderBy(s[1..], key, ascending), key, ascending);
      assert s == [s[0]] + s[1..];
    }
  }

  /** The result of `OrderBy` is sorted by the key in the requested direction. */
  lemma {:induction false} OrderBySorted<T>(s: seq<T>, key: T -> int, ascending: bool)
    ensures Sorted(OrderBy(s, key, ascending), key, ascending)
  {
    if s != [] {
      OrderBySorted(s[1..], key, ascending);
      InsertSorted(s[0], OrderBy(s[1..], key, ascending), key, ascending);
    }
  }

  /** `Enumerable.Skip` with a non-negative count. */
  function Skip<T>(s: seq<T>, n: nat): (r: seq<T>)
    ensures |r| == if n <= |s| then |s| - n else 0
    ensures forall i :: 0 <= i < |r| ==> r[i] == s[n + i]
  {
    if n <= |s| then s[n..] else []
  }

  /** `Enumerable.Take` with a non-negative count. */
  function Take<T>(s: seq<T>, n: nat): (r: seq<T>)
    ensures |r| == if n <= |s| then n else |s|
    ensures r <= s
  {
    if n <= |s| then s[..n] else s
  }

  /** Filtering a sorted sequence keeps it sorted. */
  lemma {:induction false} WherePreservesSorted<T>(s: seq<T>, key: T -> int, ascending: bool, p: T -> bool)
    requires Sorted(s, key, ascending)
    ensures Sorted(Where(s, p), key, ascending)
  {
    if s != [] {
      WherePreservesSorted(s[1..], key, ascending, p);
      var rest := Where(s[1..], p);
      forall j | 0 <= j < |rest|
        ensures InOrder(key(s[0]), key(rest[j]), ascending)
      {
        assert rest[j] in s[1..];
        var k :| 0 <= k < |s[1..]| && s[1..][k] == rest[j];
        assert s[k + 1] == rest[j];
      }
    }
  }

  /** One step of `Where` on a sequence with a known first element. */
  lemma WhereCons<T>(x: T, s: seq<T>, p: T -> bool)
    ensures Where([x] + s, p) == if p(x) then [x] + Where(s, p) else Where(s, p)
  {
    assert ([x] + s)[1..] == s;
  }

  /** The first element of a filtered sorted sequence may follow anything `x` may precede. */
  lemma WhereHeadFollows<T>(x: T, s: seq<T>, key: T -> int, ascending: bool, p: T -> bool)
    requires Sorted(s, key, ascending)
    requires s != [] && InOrder(key(x), key(s[0]), ascending)
    requires Where(s, p) != []
    ensures InOrder(key(x), key(Where(s, p)[0]), ascending)
  {
    var w := Where(s, p);
    assert w[0] in s;
    var k :| 0 <= k < |s| && s[k] == w[0];
    assert k == 0 || InOrder(key(s[0]), key(s[k]), ascending);
  }

  /** Filtering after an insertion is inserting into the filtered sequence (when `x` survives). */
  lemma {:induction false} WhereInsert<T>(x: T, s: seq<T>, key: T -> int, ascending: bool, p: T -> bool)
    requires Sorted(s, key, ascending)
    ensures Sorted(Where(s, p), key, ascending)
    ensures Where(Insert(x, s, key, ascending), p) ==
      if p(x) then Insert(x, Where(s, p), key, ascending) else Where(s, p)
  {
    WherePreservesSorted(s, key, ascending, p);
    if s == [] {
      WhereCons(x, [], p);
    } else if InOrder(key(x), key(s[0]), ascending) {
      WhereCons(x, s, p);
      if p(x) && Where(s, p) != [] {
        WhereHeadFollows(x, s, key, ascending, p);
      }
    } else {
      assert s == [s[0]] + s[1..];
      WhereInsert(x, s[1..], key, ascending, p);
      WhereCons(s[0], Insert(x, s[1..], key, ascending), p);
      WhereCons(s[0], s[1..], p);
    }
  }

  /**
   * Ordering then filtering gives the same sequence as filtering then
   * ordering: the order of the two stages does not matter.
   */
  lemma {:induction false} WhereOrderBy<T>(s: seq<T>, key: T -> int, ascending: bool, p: T -> bool)
    ensures Where(OrderBy(s, key, ascending), p) == OrderBy(Where(s, p), key, ascending)
  {
    if s != [] {
      WhereOrderBy(s[1..], key, ascending, p);
      OrderBySorted(s[1..], key, ascending);
      WhereInsert(s[0], OrderBy(s[1..], key, ascending), key, ascending, p);
      assert s == [s[0]] + s[1..];
      WhereCons(s[0], s[1..], p);
      var w := Where(s[1..], p);
      assert ([s[0]] + w)[1..] == w;
    }
  }

  /** `Where` drops nothing it should keep: each kept value keeps its multiplicity, and every other value is gone. */
  lemma {:induction false} WhereMultiplicity<T>(s: seq<T>, p: T -> bool, x: T)
    ensures multiset(Where(s, p))[x] == if p(x) then multiset(s)[x] else 0
  {
    if s != [] {
      WhereMultiplicity(s[1..], p, x);
      assert s == [s[0]] + s[1..];
    }
  }
}
