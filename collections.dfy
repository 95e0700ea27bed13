/**
 * The two things every query in the services asks of the database besides
 * its `where` clause: keep the rows that match (Filter) and order them by one
 * integer column (SortBy, with `orderBy: { column: "asc" | "desc" }`).
 */
module Collections {

  datatype Direction = Ascending | Descending

  predicate InOrder(a: int, b: int, dir: Direction)
  {
    match dir
    case Ascending => a <= b
    case Descending => a >= b
  }

  ghost predicate SortedBy<T>(s: seq<T>, key: T -> int, dir: Direction)
  {
    forall i, j :: 0 <= i < j < |s| ==> InOrder(key(s[i]), key(s[j]), dir)
  }

  /** The rows of `s` that satisfy `p`, in their original order. */
  function Filter<T(!new)>(s: seq<T>, p: T -> bool): (r: seq<T>)
    ensures forall x :: multiset(r)[x] == if p(x) then multiset(s)[x] else 0
    ensures |r| <= |s|
  {
    if s == [] then []
    else
      var rest := Filter(s[..|s| - 1], p);
      assert s == s[..|s| - 1] + [s[|s| - 1]];
      if p(s[|s| - 1]) then rest + [s[|s| - 1]] else rest
  }

  /** The positions of `s` whose row satisfies `p`. */
  ghost function IndicesWhere<T>(s: seq<T>, p: T -> bool): set<int>
  {
    set i | 0 <= i < |s| && p(s[i])
  }

  lemma IndicesWhereSnoc<T>(s: seq<T>, p: T -> bool)
    requires s != []
    ensures IndicesWhere(s, p) ==
              IndicesWhere(s[..|s| - 1], p) + (if p(s[|s| - 1]) then {|s| - 1} else {})
  {
    var n := |s| - 1;
    forall i ensures i in IndicesWhere(s, p) <==> i in IndicesWhere(s[..n], p) || (i == n && p(s[n])) {
      if 0 <= i < n {
        assert s[..n][i] == s[i];
      }
    }
  }

  /** Filter keeps exactly as many rows as there are matching positions. */
  lemma {:induction false} FilterCountsMatchingIndices<T(!new)>(s: seq<T>, p: T -> bool)
    ensures |Filter(s, p)| == |IndicesWhere(s, p)|
  {
    if s != [] {
      var n := |s| - 1;
      FilterCountsMatchingIndices(s[..n], p);
      IndicesWhereSnoc(s, p);
      assert n !in IndicesWhere(s[..n], p);
    }
  }

  /** Filter only depends on what the test says about the rows present. */
  lemma {:induction false} FilterSameTest<T(!new)>(s: seq<T>, p: T -> bool, q: T -> bool)
    requires forall i :: 0 <= i < |s| ==> p(s[i]) == q(s[i])
    ensures Filter(s, p) == Filter(s, q)
  {
    if s != [] {
      FilterSameTest(s[..|s| - 1], p, q);
    }
  }

  /** Inserts `x` into a sorted sequence before the first row it may precede. */
  function InsertBy<T>(s: seq<T>, x: T, key: T -> int, dir: Direction): (r: seq<T>)
    requires SortedBy(s, key, dir)
    ensures multiset(r) == multiset(s) + multiset{x}
    ensures SortedBy(r, key, dir)
  {
    if s == [] || InOrder(key(x), key(s[0]), dir) then
      [x] + s
    else
      var rest := InsertBy(s[1..], x, key, dir);
      assert s == [s[0]] + s[1..];
      assert forall k :: 0 <= k < |rest| ==> InOrder(key(s[0]), key(rest[k]), dir) by {
        forall k | 0 <= k < |rest|
          ensures InOrder(key(s[0]), key(rest[k]), dir)
        {
          assert rest[k] in multiset(rest);
          if rest[k] != x {
            assert rest[k] in multiset(s[1..]);
            var m :| 0 <= m < |s[1..]| && s[1..][m] == rest[k];
            assert s[m + 1] == rest[k];
          }
        }
      }
      [s[0]] + rest
  }

  /** The rows of `s` ordered by `key` in direction `dir`. */
  function SortBy<T>(s: seq<T>, key: T -> int, dir: Direction): (r: seq<T>)
    ensures multiset(r) == multiset(s)
    ensures SortedBy(r, key, dir)
  {
    if s == [] then []
    else
      assert s == s[..|s| - 1] + [s[|s| - 1]];
      InsertBy(SortBy(s[..|s| - 1], key, dir), s[|s| - 1], key, dir)
  }
}
