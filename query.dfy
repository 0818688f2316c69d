/**
 * The LINQ operators the services apply to a table: enumerate its rows, filter
 * (`Where`), project (`Select`) and order (`OrderBy`, `OrderByDescending`). A table is
 * a map from primary key to row; its rows are enumerated in ascending key order.
 */
module Query {

  /** Strictly ascending, hence free of duplicates. */
  predicate Increasing(s: seq<int>) {
    forall i, j | 0 <= i < j < |s| :: s[i] < s[j]
  }

  predicate NoDuplicates<T(==)>(s: seq<T>) {
    forall i, j | 0 <= i < j < |s| :: s[i] != s[j]
  }

  lemma NonEmpty(s: set<int>)
    requires s != {}
    ensures exists x :: x in s
  {
    if forall x :: x !in s {
      assert false;
    }
  }

  predicate IsLeast(m: int, ks: set<int>) {
    m in ks && forall k | k in ks :: m <= k
  }

  lemma {:induction false} MinExists(ks: set<int>)
    requires ks != {}
    ensures exists m :: IsLeast(m, ks)
    decreases ks
  {
    NonEmpty(ks);
    var x :| x in ks;
    var rest := ks - {x};
    assert forall k | k in ks :: k == x || k in rest;
    if rest == {} {
      assert IsLeast(x, ks);
    } else {
      MinExists(rest);
      var y :| IsLeast(y, rest);
      if x < y {
        assert IsLeast(x, ks);
      } else {
        assert IsLeast(y, ks);
      }
    }
  }

  /** The least key of a non-empty key set. */
  function MinOf(ks: set<int>): (m: int)
    requires ks != {}
    ensures m in ks && forall k | k in ks :: m <= k
  {
    MinExists(ks);
    var m :| IsLeast(m, ks);
    m
  }

  /** The keys of a table in ascending order. */
  function SortedKeys(ks: set<int>): (r: seq<int>)
    ensures Increasing(r)
    ensures forall k :: k in r <==> k in ks
    ensures |r| == |ks|
    decreases ks
  {
    if ks == {} then []
    else
      var m := MinOf(ks);
      var rest := SortedKeys(ks - {m});
      assert forall k | k in rest :: m < k;
      [m] + rest
  }

  /** The rows stored under the given keys, in the order of the keys. */
  function RowsAt<T>(ks: seq<int>, m: map<int, T>): (r: seq<T>)
    requires forall i | 0 <= i < |ks| :: ks[i] in m
    ensures |r| == |ks|
    ensures forall i | 0 <= i < |ks| :: r[i] == m[ks[i]]
  {
    seq(|ks|, i requires 0 <= i < |ks| => m[ks[i]])
  }

  /** Every row of a table, in ascending key order. */
  function Rows<T(==,!new)>(m: map<int, T>): (r: seq<T>)
    ensures |r| == |m|
    ensures forall x :: x in r <==> x in m.Values
  {
    var ks := SortedKeys(m.Keys);
    var r := RowsAt(ks, m);
    forall x | x in m.Values ensures x in r {
      var k :| k in m && m[k] == x;
      var i :| 0 <= i < |ks| && ks[i] == k;
      assert r[i] == x;
    }
    r
  }

  /** `Where`: the elements that satisfy `p`, in their original order. */
  function Where<T(!new)>(s: seq<T>, p: T -> bool): (r: seq<T>)
    ensures |r| <= |s|
    ensures forall x :: x in r <==> x in s && p(x)
  {
    if s == [] then []
    else (if p(s[0]) then [s[0]] else []) + Where(s[1..], p)
  }

  /** `Select`: the projection of each element, position by position. */
  function Select<T, U>(s: seq<T>, f: T -> U): (r: seq<U>)
    ensures |r| == |s|
    ensures forall i | 0 <= i < |s| :: r[i] == f(s[i])
  {
    seq(|s|, i requires 0 <= i < |s| => f(s[i]))
  }

  lemma IncreasingCons(x: int, t: seq<int>)
    requires Increasing(t)
    requires forall y | y in t :: x < y
    ensures Increasing([x] + t)
  {
    var r := [x] + t;
    forall i, j | 0 <= i < j < |r| ensures r[i] < r[j] {
      if i == 0 {
        assert r[j] == t[j - 1] && t[j - 1] in t;
      } else {
        assert r[i] == t[i - 1] && r[j] == t[j - 1];
      }
    }
  }

  /** Filtering keeps a strictly ascending sequence strictly ascending. */
  lemma {:induction false} WhereKeepsIncreasing(s: seq<int>, p: int -> bool)
    requires Increasing(s)
    ensures Increasing(Where(s, p))
  {
    if s != [] {
      var rest := Where(s[1..], p);
      WhereKeepsIncreasing(s[1..], p);
      if p(s[0]) {
        forall y | y in rest ensures s[0] < y {
          var i :| 0 <= i < |s[1..]| && s[1..][i] == y;
          assert s[i + 1] == y;
        }
        IncreasingCons(s[0], rest);
      }
    }
  }

  /** Filtering keeps a duplicate-free sequence duplicate-free. */
  lemma {:induction false} WhereKeepsDistinct<T(!new)>(s: seq<T>, p: T -> bool)
    requires NoDuplicates(s)
    ensures NoDuplicates(Where(s, p))
  {
    if s != [] {
      var rest := Where(s[1..], p);
      WhereKeepsDistinct(s[1..], p);
      assert s[0] !in rest;
    }
  }

  lemma IncreasingDistinct(s: seq<int>)
    requires Increasing(s)
    ensures NoDuplicates(s)
  {
  }

  /** A projection contains exactly the images of the elements it was taken from. */
  lemma SelectMembers<T, U>(s: seq<T>, f: T -> U, y: U)
    ensures y in Select(s, f) <==> exists x :: x in s && y == f(x)
  {
    var r := Select(s, f);
    if y in r {
      var i :| 0 <= i < |r| && r[i] == y;
      assert s[i] in s && y == f(s[i]);
    }
    if exists x :: x in s && y == f(x) {
      var x :| x in s && y == f(x);
      var i :| 0 <= i < |s| && s[i] == x;
      assert r[i] == y;
    }
  }

  /** The keys whose rows satisfy `p`. */
  function KeysWhere<T>(m: map<int, T>, p: T -> bool): set<int> {
    set k | k in m && p(m[k])
  }

  /** Counting the rows of a table that satisfy `p` counts the matching keys. */
  lemma {:induction false} CountWhereRows<T(!new)>(m: map<int, T>, p: T -> bool)
    ensures |Where(Rows(m), p)| == |KeysWhere(m, p)|
  {
    var ks := SortedKeys(m.Keys);
    assert Rows(m) == RowsAt(ks, m);
    CountWhereRowsAt(ks, m, p);
    MatchingAllKeys(m, p);
  }

  lemma MatchingAllKeys<T>(m: map<int, T>, p: T -> bool)
    ensures MatchingKeys(SortedKeys(m.Keys), m, p) == KeysWhere(m, p)
  {
    var ks := SortedKeys(m.Keys);
    var a := MatchingKeys(ks, m, p);
    var b := KeysWhere(m, p);
    forall k ensures k in a <==> k in b {
      assert k in a <==> k in ks && k in m && p(m[k]);
      assert k in ks <==> k in m;
    }
  }

  /** The keys of `ks` whose rows satisfy `p`. */
  function MatchingKeys<T>(ks: seq<int>, m: map<int, T>, p: T -> bool): (r: set<int>)
    requires forall i | 0 <= i < |ks| :: ks[i] in m
    ensures forall k :: k in r <==> k in ks && k in m && p(m[k])
  {
    if ks == [] then {}
    else
      var rest := MatchingKeys(ks[1..], m, p);
      assert forall k :: k in ks <==> k == ks[0] || k in ks[1..];
      (if p(m[ks[0]]) then {ks[0]} else {}) + rest
  }

  lemma {:induction false} CountWhereRowsAt<T(!new)>(ks: seq<int>, m: map<int, T>, p: T -> bool)
    requires Increasing(ks)
    requires forall i | 0 <= i < |ks| :: ks[i] in m
    ensures |Where(RowsAt(ks, m), p)| == |MatchingKeys(ks, m, p)|
  {
    if ks != [] {
      var rows := RowsAt(ks, m);
      assert |Where(rows, p)| == (if p(m[ks[0]]) then 1 else 0) + |Where(RowsAt(ks[1..], m), p)| by {
        assert rows[1..] == RowsAt(ks[1..], m);
        assert Where(rows, p) == (if p(rows[0]) then [rows[0]] else []) + Where(rows[1..], p);
      }
      CountWhereRowsAt(ks[1..], m, p);
      MatchingKeysCons(ks, m, p);
    }
  }

  lemma MatchingKeysCons<T>(ks: seq<int>, m: map<int, T>, p: T -> bool)
    requires ks != [] && Increasing(ks)
    requires forall i | 0 <= i < |ks| :: ks[i] in m
    ensures |MatchingKeys(ks, m, p)| == (if p(m[ks[0]]) then 1 else 0) + |MatchingKeys(ks[1..], m, p)|
  {
    var rest := MatchingKeys(ks[1..], m, p);
    assert ks[0] !in rest by {
      assert forall j | 0 <= j < |ks[1..]| :: ks[1..][j] == ks[j + 1] && ks[0] < ks[j + 1];
    }
  }

  /** `le` is a total preorder: the comparison that `OrderBy` sorts by. */
  ghost predicate TotalPreorder<T(!new)>(le: (T, T) -> bool) {
    && (forall a, b :: le(a, b) || le(b, a))
    && (forall a, b, c :: le(a, b) && le(b, c) ==> le(a, c))
  }

  predicate SortedBy<T>(s: seq<T>, le: (T, T) -> bool) {
    forall i, j | 0 <= i < j < |s| :: le(s[i], s[j])
  }

  /** Inserts `x` before the first element it does not follow. */
  function InsertBy<T(!new)>(x: T, s: seq<T>, le: (T, T) -> bool): (r: seq<T>)
    requires TotalPreorder(le)
    requires SortedBy(s, le)
    ensures SortedBy(r, le)
    ensures multiset(r) == multiset(s) + multiset{x}
  {
    if s == [] || le(x, s[0]) then [x] + s
    else
      var rest := InsertBy(x, s[1..], le);
      assert s == [s[0]] + s[1..];
      HeadPrecedes(s, x, rest, le);
      [s[0]] + rest
  }

  /** The head of a sorted sequence precedes every element of its tail with `x` inserted, when it precedes `x`. */
  lemma HeadPrecedes<T>(s: seq<T>, x: T, rest: seq<T>, le: (T, T) -> bool)
    requires s != [] && SortedBy(s, le) && le(s[0], x)
    requires multiset(rest) == multiset(s[1..]) + multiset{x}
    ensures forall j | 0 <= j < |rest| :: le(s[0], rest[j])
  {
    forall j | 0 <= j < |rest| ensures le(s[0], rest[j]) {
      assert rest[j] in multiset(rest);
      if rest[j] != x {
        assert rest[j] in multiset(s[1..]);
        var k :| 0 <= k < |s[1..]| && s[1..][k] == rest[j];
        assert s[k + 1] == rest[j];
      }
    }
  }

  /** `OrderBy`: a stable sort of `s` by `le`. */
  function OrderBy<T(!new)>(s: seq<T>, le: (T, T) -> bool): (r: seq<T>)
    requires TotalPreorder(le)
    ensures SortedBy(r, le)
    ensures multiset(r) == multiset(s)
  {
    if s == [] then []
    else
      assert s == [s[0]] + s[1..];
      InsertBy(s[0], OrderBy(s[1..], le), le)
  }

  /** Sorting keeps exactly the elements and the length of its input. */
  lemma OrderByMembers<T(!new)>(s: seq<T>, le: (T, T) -> bool)
    requires TotalPreorder(le)
    ensures |OrderBy(s, le)| == |s|
    ensures forall x :: x in OrderBy(s, le) <==> x in s
  {
    var r := OrderBy(s, le);
    assert |multiset(r)| == |multiset(s)|;
    forall x ensures x in r <==> x in s {
      assert x in r <==> x in multiset(r);
      assert x in s <==> x in multiset(s);
    }
  }

  /**
   * `Where(p).OrderBy(le)` over a table: the rows that satisfy `p`, sorted, as many as
   * there are matching keys.
   */
  function WhereOrdered<T(==,!new)>(m: map<int, T>, p: T -> bool, le: (T, T) -> bool): (rows: seq<T>)
    requires TotalPreorder(le)
    ensures |rows| == |KeysWhere(m, p)|
    ensures forall x :: x in rows <==> x in m.Values && p(x)
    ensures SortedBy(rows, le)
  {
    OrderByMembers(Where(Rows(m), p), le);
    CountWhereRows(m, p);
    OrderBy(Where(Rows(m), p), le)
  }

  /** Ordinal (code-point) lexicographic order on strings. */
  predicate LexLe(a: string, b: string)
  {
    if a == [] then true
    else if b == [] then false
    else if a[0] != b[0] then a[0] < b[0]
    else LexLe(a[1..], b[1..])
  }

  lemma {:induction false} LexLeTotal(a: string, b: string)
    ensures LexLe(a, b) || LexLe(b, a)
  {
    if a != [] && b != [] && a[0] == b[0] {
      LexLeTotal(a[1..], b[1..]);
    }
  }

  lemma {:induction false} LexLeTransitive(a: string, b: string, c: string)
    requires LexLe(a, b) && LexLe(b, c)
    ensures LexLe(a, c)
  {
    if a != [] && b != [] && c != [] && a[0] == b[0] && b[0] == c[0] {
      LexLeTransitive(a[1..], b[1..], c[1..]);
    }
  }
}
