/**
 * Orderings for SQL `ORDER BY ... LIMIT n`: rows are sorted by a total
 * preorder `before` ("may be listed ahead of") and the first n are kept.
 */
module Sorting {

  /** SQL `WHERE`: the rows satisfying `p`, in table order. */
  function Where<T(!new)>(s: seq<T>, p: T -> bool): (r: seq<T>)
    ensures |r| <= |s|
    ensures forall x :: x in r <==> x in s && p(x)
  {
    if s == [] then []
    else if p(s[0]) then [s[0]] + Where(s[1..], p)
    else Where(s[1..], p)
  }

  /** Removing rows that fail `p` only shortens the table by the number of those rows. */
  lemma {:induction false} WhereSplit<T(!new)>(s: seq<T>, p: T -> bool)
    ensures |Where(s, p)| + |Where(s, x => !p(x))| == |s|
  {
    if s != [] {
      WhereSplit(s[1..], p);
    }
  }

  /** A filter that every row passes keeps the table as it is. */
  lemma {:induction false} WhereAll<T(!new)>(s: seq<T>, p: T -> bool)
    requires forall x :: x in s ==> p(x)
    ensures Where(s, p) == s
  {
    if s != [] {
      WhereAll(s[1..], p);
    }
  }

  /** Two filters that agree on every row select the same rows. */
  lemma {:induction false} WhereCongruent<T(!new)>(s: seq<T>, p: T -> bool, q: T -> bool)
    requires forall x :: p(x) == q(x)
    ensures Where(s, p) == Where(s, q)
  {
    if s != [] {
      WhereCongruent(s[1..], p, q);
    }
  }

  /** Filtering a table with one more row at the end keeps that row exactly when it satisfies `p`. */
  lemma {:induction false} WhereSnoc<T(!new)>(s: seq<T>, x: T, p: T -> bool)
    ensures Where(s + [x], p) == Where(s, p) + (if p(x) then [x] else [])
  {
    if s != [] {
      assert (s + [x])[1..] == s[1..] + [x];
      WhereSnoc(s[1..], x, p);
    }
  }

  /** `LIMIT n` on a result set: SQLite treats a negative limit as no limit. */
  function Limit<T>(s: seq<T>, limit: int): (r: seq<T>)
    ensures limit < 0 || limit >= |s| ==> r == s
    ensures 0 <= limit < |s| ==> |r| == limit
  {
    if limit < 0 || limit >= |s| then s else s[..limit]
  }

  ghost predicate TotalPreorder<T(!new)>(before: (T, T) -> bool)
  {
    (forall a, b :: before(a, b) || before(b, a))
    && (forall a, b, c :: before(a, b) && before(b, c) ==> before(a, c))
  }

  predicate SortedBy<T>(s: seq<T>, before: (T, T) -> bool)
  {
    forall i, j :: 0 <= i < j < |s| ==> before(s[i], s[j])
  }

  function Insert<T>(x: T, s: seq<T>, before: (T, T) -> bool): (r: seq<T>)
    ensures |r| == |s| + 1
    ensures multiset(r) == multiset(s) + multiset{x}
  {
    if s == [] then [x]
    else if before(x, s[0]) then [x] + s
    else
      assert s == [s[0]] + s[1..];
      [s[0]] + Insert(x, s[1..], before)
  }

  lemma {:induction false} InsertSorted<T(!new)>(x: T, s: seq<T>, before: (T, T) -> bool)
    requires TotalPreorder(before)
    requires SortedBy(s, before)
    ensures SortedBy(Insert(x, s, before), before)
  {
    if s != [] && !before(x, s[0]) {
      InsertSorted(x, s[1..], before);
      var r := Insert(x, s, before);
      var t := Insert(x, s[1..], before);
      assert r == [s[0]] + t;
      assert forall k :: 0 <= k < |t| ==> before(s[0], t[k]) by {
        forall k | 0 <= k < |t| ensures before(s[0], t[k]) {
          assert t[k] in multiset(t);
          assert t[k] == x || t[k] in multiset(s[1..]);
          if t[k] != x {
            var m :| 0 <= m < |s[1..]| && s[1..][m] == t[k];
            assert s[m + 1] == t[k];
          }
        }
      }
    }
  }

  /** Insertion sort: a sorted permutation of `s`. */
  function SortBy<T>(s: seq<T>, before: (T, T) -> bool): (r: seq<T>)
    ensures |r| == |s|
    ensures multiset(r) == multiset(s)
  {
    if s == [] then []
    else
      assert s == [s[0]] + s[1..];
      Insert(s[0], SortBy(s[1..], before), before)
  }

  lemma {:induction false} SortBySorted<T(!new)>(s: seq<T>, before: (T, T) -> bool)
    requires TotalPreorder(before)
    ensures SortedBy(SortBy(s, before), before)
  {
    if s != [] {
      SortBySorted(s[1..], before);
      InsertSorted(s[0], SortBy(s[1..], before), before);
    }
  }

  /** `ORDER BY ... LIMIT limit`: the first `limit` rows of the sorted table. */
  function TopN<T>(s: seq<T>, before: (T, T) -> bool, limit: int): (r: seq<T>)
    ensures |r| == if 0 <= limit < |s| then limit else |s|
  {
    Limit(SortBy(s, before), limit)
  }

  /**
   * The rows kept by `TopN` come from the input, are sorted, and each of
   * them may be listed ahead of every row that was cut off.
   */
  lemma TopNSpec<T(!new)>(s: seq<T>, before: (T, T) -> bool, limit: int)
    requires TotalPreorder(before)
    ensures SortedBy(TopN(s, before, limit), before)
    ensures forall x :: x in TopN(s, before, limit) ==> x in s
    ensures forall x, y :: x in TopN(s, before, limit) && y in s && y !in TopN(s, before, limit) ==> before(x, y)
  {
    var sorted := SortBy(s, before);
    SortBySorted(s, before);
    var k := |TopN(s, before, limit)|;
    assert TopN(s, before, limit) == sorted[..k];
    forall x | x in sorted[..k] ensures x in s {
      assert x in multiset(sorted);
    }
    forall x, y | x in sorted[..k] && y in s && y !in sorted[..k] ensures before(x, y) {
      assert y in multiset(sorted);
      var i :| 0 <= i < k && sorted[i] == x;
      var j :| 0 <= j < |sorted| && sorted[j] == y;
    }
  }

  /** Without a limit every row is listed. */
  lemma TopNUnlimited<T>(s: seq<T>, before: (T, T) -> bool, limit: int)
    requires limit < 0
    ensures forall x :: x in s ==> x in TopN(s, before, limit)
  {
    forall x | x in s ensures x in TopN(s, before, limit) {
      assert x in multiset(SortBy(s, before));
    }
  }

  /** Lexicographic order of code points, which is also the byte order of their UTF-8 encodings. */
  predicate LexLe(a: string, b: string)
  {
    a == [] || (b != [] && (a[0] < b[0] || (a[0] == b[0] && LexLe(a[1..], b[1..]))))
  }

  lemma {:induction false} LexLeTotal(a: string, b: string)
    ensures LexLe(a, b) || LexLe(b, a)
  {
    if a != [] && b != [] && a[0] == b[0] {
      LexLeTotal(a[1..], b[1..]);
    }
  }

  lemma {:induction false} LexLeTransitive(a: string, b: string, c: string)
    requires LexLe(a, b) && LexLe(b, c)
    ensures LexLe(a, c)
  {
    if a != [] && a[0] == b[0] && b[0] == c[0] {
      LexLeTransitive(a[1..], b[1..], c[1..]);
    }
  }
}
