/** The pieces of SQL query semantics the API relies on: WHERE as a filter,
    ORDER BY on an integer column over an append-ordered table, ORDER BY on a
    text column (binary collation, i.e. lexicographic order of code points)
    and LIMIT. */
module Ordering {

  /** Rows of s satisfying p, in table order. */
  function Filter<T>(s: seq<T>, p: T -> bool): (r: seq<T>)
    ensures |r| <= |s|
    ensures forall x :: x in r ==> x in s && p(x)
  {
    if |s| == 0 then []
    else if p(s[|s| - 1]) then Filter(s[..|s| - 1], p) + [s[|s| - 1]]
    else Filter(s[..|s| - 1], p)
  }

  lemma {:induction false} FilterComplete<T>(s: seq<T>, p: T -> bool, x: T)
    requires x in s && p(x)
    ensures x in Filter(s, p)
  {
    if s[|s| - 1] != x {
      assert x in s[..|s| - 1] by {
        var i :| 0 <= i < |s| && s[i] == x;
        assert i < |s| - 1 && s[..|s| - 1][i] == x;
      }
      FilterComplete(s[..|s| - 1], p, x);
    }
  }

  /** Filtering an appended row filters the old rows and keeps the new one if it matches. */
  lemma FilterAppend<T>(s: seq<T>, x: T, p: T -> bool)
    ensures Filter(s + [x], p) == if p(x) then Filter(s, p) + [x] else Filter(s, p)
  {
    assert (s + [x])[..|s + [x]| - 1] == s;
  }

  /** Filtering a prepended row keeps it in front if it matches. */
  lemma {:induction false} FilterPrepend<T>(x: T, s: seq<T>, p: T -> bool)
    ensures Filter([x] + s, p) == if p(x) then [x] + Filter(s, p) else Filter(s, p)
  {
    var t := [x] + s;
    if |s| > 0 {
      var init := s[..|s| - 1];
      assert t[..|t| - 1] == [x] + init;
      FilterPrepend(x, init, p);
    } else {
      assert t[..|t| - 1] == [];
    }
  }

  /** Two filters that never keep the same row keep at most |s| rows together. */
  lemma {:induction false} FilterDisjoint<T>(s: seq<T>, p: T -> bool, q: T -> bool)
    requires forall x :: !(p(x) && q(x))
    ensures |Filter(s, p)| + |Filter(s, q)| <= |s|
  {
    if |s| > 0 {
      FilterDisjoint(s[..|s| - 1], p, q);
    }
  }

  /** A strictly increasing integer attribute along s. */
  ghost predicate Increasing<T>(s: seq<T>, key: T -> int)
  {
    forall i, j :: 0 <= i < j < |s| ==> key(s[i]) < key(s[j])
  }

  lemma IncreasingTail<T>(s: seq<T>, key: T -> int)
    requires Increasing(s, key) && |s| > 0
    ensures Increasing(s[1..], key)
  {
    forall i, j | 0 <= i < j < |s[1..]| ensures key(s[1..][i]) < key(s[1..][j]) {
      assert s[1..][i] == s[i + 1] && s[1..][j] == s[j + 1];
    }
  }

  /** A strictly decreasing integer attribute along s (so no row repeats). */
  ghost predicate Decreasing<T>(s: seq<T>, key: T -> int)
  {
    forall i, j :: 0 <= i < j < |s| ==> key(s[i]) > key(s[j])
  }

  /** A filter keeps the relative order of the rows it keeps. */
  lemma {:induction false} FilterIncreasing<T>(s: seq<T>, p: T -> bool, key: T -> int)
    requires Increasing(s, key)
    ensures Increasing(Filter(s, p), key)
  {
    if |s| > 0 {
      var init := s[..|s| - 1];
      assert Increasing(init, key) by {
        forall i, j | 0 <= i < j < |init| ensures key(init[i]) < key(init[j]) {
          assert init[i] == s[i] && init[j] == s[j];
        }
      }
      FilterIncreasing(init, p, key);
      var f := Filter(init, p);
      if p(s[|s| - 1]) {
        forall x | x in f ensures key(x) < key(s[|s| - 1]) {
          var i :| 0 <= i < |init| && init[i] == x;
          assert s[i] == x;
        }
        var r := f + [s[|s| - 1]];
        forall i, j | 0 <= i < j < |r| ensures key(r[i]) < key(r[j]) {
          if j < |f| {
            assert r[i] == f[i] && r[j] == f[j];
          } else {
            assert r[i] == f[i] && f[i] in f;
          }
        }
      }
    }
  }

  function Reverse<T>(s: seq<T>): (r: seq<T>)
    ensures |r| == |s|
    ensures forall i :: 0 <= i < |s| ==> r[i] == s[|s| - 1 - i]
    ensures multiset(r) == multiset(s)
  {
    if |s| == 0 then []
    else assert s == s[..|s| - 1] + [s[|s| - 1]]; [s[|s| - 1]] + Reverse(s[..|s| - 1])
  }

  lemma ReverseMembers<T>(s: seq<T>, x: T)
    ensures x in Reverse(s) <==> x in s
  {
    var r := Reverse(s);
    if x in s {
      var i :| 0 <= i < |s| && s[i] == x;
      assert r[|s| - 1 - i] == x;
    }
    if x in r {
      var i :| 0 <= i < |r| && r[i] == x;
      assert s[|s| - 1 - i] == x;
    }
  }

  /** ORDER BY key DESC over an append-ordered table is its reverse. */
  lemma ReverseOfIncreasing<T>(s: seq<T>, key: T -> int)
    requires Increasing(s, key)
    ensures Decreasing(Reverse(s), key)
  {
    var r := Reverse(s);
    forall i, j | 0 <= i < j < |r| ensures key(r[i]) > key(r[j]) {
      assert r[i] == s[|s| - 1 - i] && r[j] == s[|s| - 1 - j];
    }
  }

  /** The first n rows (LIMIT n). */
  function Limit<T>(s: seq<T>, n: nat): (r: seq<T>)
    ensures |r| == if |s| < n then |s| else n
    ensures r == s[..|r|]
  {
    if |s| <= n then s else s[..n]
  }

  // ---- text order ----

  /** a sorts at or before b under binary collation. */
  predicate TextLe(a: string, b: string)
  {
    |a| == 0 || (|b| > 0 && (a[0] < b[0] || (a[0] == b[0] && TextLe(a[1..], b[1..]))))
  }

  lemma {:induction false} TextLeTotal(a: string, b: string)
    ensures TextLe(a, b) || TextLe(b, a)
  {
    if |a| > 0 && |b| > 0 && a[0] == b[0] {
      TextLeTotal(a[1..], b[1..]);
    }
  }

  lemma {:induction false} TextLeTransitive(a: string, b: string, c: string)
    requires TextLe(a, b) && TextLe(b, c)
    ensures TextLe(a, c)
  {
    if |a| > 0 && a[0] == b[0] && b[0] == c[0] {
      TextLeTransitive(a[1..], b[1..], c[1..]);
    }
  }

  lemma {:induction false} TextLeAntisymmetric(a: string, b: string)
    requires TextLe(a, b) && TextLe(b, a)
    ensures a == b
  {
    if |a| > 0 {
      TextLeAntisymmetric(a[1..], b[1..]);
      assert a == [a[0]] + a[1..] && b == [b[0]] + b[1..];
    }
  }

  /** Rows sorted by a text attribute, ascending. */
  ghost predicate SortedBy<T>(s: seq<T>, key: T -> string)
  {
    forall i, j :: 0 <= i < j < |s| ==> TextLe(key(s[i]), key(s[j]))
  }

  /** Rows sorted by a text attribute, descending. */
  ghost predicate SortedDescBy<T>(s: seq<T>, key: T -> string)
  {
    forall i, j :: 0 <= i < j < |s| ==> TextLe(key(s[j]), key(s[i]))
  }

  /** ORDER BY key DESC: the reverse of the ascending order. */
  lemma ReverseOfSorted<T>(s: seq<T>, key: T -> string)
    requires SortedBy(s, key)
    ensures SortedDescBy(Reverse(s), key)
  {
    var r := Reverse(s);
    forall i, j | 0 <= i < j < |r| ensures TextLe(key(r[j]), key(r[i])) {
      assert r[i] == s[|s| - 1 - i] && r[j] == s[|s| - 1 - j];
    }
  }

  /** LIMIT n over a descending order keeps the n greatest rows: what it
      leaves out sorts no later than anything it keeps. */
  lemma LimitKeepsGreatest<T>(s: seq<T>, n: nat, key: T -> string)
    requires SortedDescBy(s, key)
    ensures multiset(Limit(s, n)) <= multiset(s)
    ensures forall x, y :: x in Limit(s, n) && y in multiset(s) - multiset(Limit(s, n)) ==> TextLe(key(y), key(x))
  {
    var r := Limit(s, n);
    var k := |r|;
    assert s == r + s[k..];
    assert multiset(s) == multiset(r) + multiset(s[k..]);
    forall x, y | x in r && y in multiset(s) - multiset(r) ensures TextLe(key(y), key(x)) {
      var i :| 0 <= i < k && r[i] == x;
      assert y in multiset(s[k..]);
      var j :| 0 <= j < |s| - k && s[k..][j] == y;
      assert s[i] == x && s[k + j] == y;
    }
  }

  /** Insert x before the first row whose key is not smaller. */
  function Insert<T>(x: T, s: seq<T>, key: T -> string): (r: seq<T>)
    ensures multiset(r) == multiset(s) + multiset{x}
    ensures |r| == |s| + 1
  {
    if |s| == 0 then [x]
    else if TextLe(key(x), key(s[0])) then [x] + s
    else assert s == [s[0]] + s[1..]; [s[0]] + Insert(x, s[1..], key)
  }

  /** ORDER BY key (ascending): an insertion sort. */
  function SortBy<T>(s: seq<T>, key: T -> string): (r: seq<T>)
    ensures multiset(r) == multiset(s)
    ensures |r| == |s|
  {
    if |s| == 0 then [] else assert s == [s[0]] + s[1..]; Insert(s[0], SortBy(s[1..], key), key)
  }

  /** A bound below x and below every row of s is below every row of the insertion. */
  lemma InsertLowerBound<T>(x: T, s: seq<T>, key: T -> string, b: string)
    requires TextLe(b, key(x))
    requires forall y :: y in s ==> TextLe(b, key(y))
    ensures forall y :: y in Insert(x, s, key) ==> TextLe(b, key(y))
  {
    var r := Insert(x, s, key);
    forall y | y in r ensures TextLe(b, key(y)) {
      assert y in multiset(r);
      assert y in multiset(s) || y == x;
    }
  }

  /** A sorted list with a first row no later than all the others. */
  lemma SortedCons<T>(h: T, s: seq<T>, key: T -> string)
    requires SortedBy(s, key)
    requires forall y :: y in s ==> TextLe(key(h), key(y))
    ensures SortedBy([h] + s, key)
  {
    var r := [h] + s;
    forall i, j | 0 <= i < j < |r| ensures TextLe(key(r[i]), key(r[j])) {
      if i == 0 {
        assert r[j] == s[j - 1] && s[j - 1] in s;
      } else {
        assert r[i] == s[i - 1] && r[j] == s[j - 1];
      }
    }
  }

  lemma {:induction false} InsertSorted<T>(x: T, s: seq<T>, key: T -> string)
    requires SortedBy(s, key)
    ensures SortedBy(Insert(x, s, key), key)
  {
    if |s| == 0 {
    } else {
      var tail := s[1..];
      forall y | y in tail ensures TextLe(key(s[0]), key(y)) {
        var k :| 0 <= k < |tail| && tail[k] == y;
        assert s[k + 1] == y;
      }
      if TextLe(key(x), key(s[0])) {
        forall y | y in s ensures TextLe(key(x), key(y)) {
          if y != s[0] {
            assert y in tail by { var k :| 0 <= k < |s| && s[k] == y; assert tail[k - 1] == y; }
            TextLeTransitive(key(x), key(s[0]), key(y));
          }
        }
        SortedCons(x, s, key);
      } else {
        assert SortedBy(tail, key) by {
          forall i, j | 0 <= i < j < |tail| ensures TextLe(key(tail[i]), key(tail[j])) {
            assert tail[i] == s[i + 1] && tail[j] == s[j + 1];
          }
        }
        InsertSorted(x, tail, key);
        TextLeTotal(key(x), key(s[0]));
        InsertLowerBound(x, tail, key, key(s[0]));
        SortedCons(s[0], Insert(x, tail, key), key);
      }
    }
  }

  lemma {:induction false} SortBySorted<T>(s: seq<T>, key: T -> string)
    ensures SortedBy(SortBy(s, key), key)
  {
    if |s| > 0 {
      SortBySorted(s[1..], key);
      InsertSorted(s[0], SortBy(s[1..], key), key);
    }
  }
}
