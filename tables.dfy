/**
  The query shapes the handlers use on a table, a table being the sequence of its rows in
  rowid order: `filter(...).first()`, `filter(...).all()`, a row's existence, deletion of
  the rows a condition selects, and the rowid the store gives a new row.
 */
module Tables {
  import opened Wrappers

  /** `query.filter(p).first()`: the position of the first row satisfying `p`. */
  function FirstWhere<T>(s: seq<T>, p: T -> bool): (r: Option<nat>)
    ensures r.Some? ==> r.value < |s| && p(s[r.value])
    ensures r.Some? ==> forall j :: 0 <= j < r.value ==> !p(s[j])
    ensures r.None? <==> forall j :: 0 <= j < |s| ==> !p(s[j])
  {
    if |s| == 0 then None
    else if p(s[0]) then Some(0)
    else match FirstWhere(s[1..], p)
      case None => None
      case Some(k) => Some(k + 1)
  }

  /** `query.filter(p).all()`: the rows satisfying `p`, in table order. */
  function Filter<T(!new)>(s: seq<T>, p: T -> bool): (r: seq<T>)
    ensures |r| <= |s|
    ensures forall x :: x in r <==> x in s && p(x)
  {
    if |s| == 0 then []
    else if p(s[0]) then [s[0]] + Filter(s[1..], p)
    else Filter(s[1..], p)
  }

  /** The condition "key is not k", used to delete the rows whose key is k. */
  function KeyIsNot<T, K(==)>(key: T -> K, k: K): T -> bool
  {
    x => key(x) != k
  }

  /** The condition "key is k". */
  function KeyIs<T, K(==)>(key: T -> K, k: K): T -> bool
  {
    x => key(x) == k
  }

  /** Some row has key k. */
  ghost predicate HasKey<T(!new), K>(s: seq<T>, key: T -> K, k: K)
  {
    exists x :: x in s && key(x) == k
  }

  /** A primary-key constraint: no two positions carry the same key. */
  ghost predicate UniqueBy<T, K>(s: seq<T>, key: T -> K)
  {
    forall i, j :: 0 <= i < j < |s| ==> key(s[i]) != key(s[j])
  }

  /** A uniqueness constraint on a secondary column: equal keys mean the same row. */
  ghost predicate Determines<T(!new), K>(s: seq<T>, key: T -> K)
  {
    forall x, y :: x in s && y in s && key(x) == key(y) ==> x == y
  }

  /** The largest key, or 0 for an empty table. */
  function MaxKey<T>(s: seq<T>, key: T -> int): (m: int)
    ensures forall i :: 0 <= i < |s| ==> key(s[i]) <= m
    ensures |s| == 0 ==> m == 0
    ensures |s| > 0 ==> exists i :: 0 <= i < |s| && key(s[i]) == m
  {
    if |s| == 0 then 0
    else
      var rest := MaxKey(s[1..], key);
      if |s| == 1 || key(s[0]) >= rest then key(s[0]) else rest
  }

  /** The rowid SQLite gives a new row: one more than the largest in use, 1 for an empty table. */
  function NextKey<T(!new)>(s: seq<T>, key: T -> int): (k: int)
    ensures forall x :: x in s ==> key(x) < k
  {
    if |s| == 0 then 1 else MaxKey(s, key) + 1
  }

  lemma {:induction false} FilterKeepsUnique<T(!new), K>(s: seq<T>, p: T -> bool, key: T -> K)
    requires UniqueBy(s, key)
    ensures UniqueBy(Filter(s, p), key)
  {
    if |s| > 0 {
      var t := s[1..];
      assert UniqueBy(t, key) by {
        forall i, j | 0 <= i < j < |t| ensures key(t[i]) != key(t[j]) {
          assert t[i] == s[i + 1] && t[j] == s[j + 1];
        }
      }
      FilterKeepsUnique(t, p, key);
      if p(s[0]) {
        var f := Filter(t, p);
        var r := [s[0]] + f;
        forall i, j | 0 <= i < j < |r| ensures key(r[i]) != key(r[j]) {
          if i == 0 {
            assert r[j] in t;
            var m :| 0 <= m < |t| && t[m] == r[j];
            assert s[m + 1] == r[j];
          } else {
            assert r[i] == f[i - 1] && r[j] == f[j - 1];
          }
        }
      }
    }
  }

  /** Deleting by a primary key that is present removes exactly one row. */
  lemma {:induction false} FilterRemovesOne<T(!new)>(s: seq<T>, key: T -> int, k: int)
    requires UniqueBy(s, key)
    requires HasKey(s, key, k)
    ensures |Filter(s, KeyIsNot(key, k))| == |s| - 1
  {
    var t := s[1..];
    assert UniqueBy(t, key) by {
      forall i, j | 0 <= i < j < |t| ensures key(t[i]) != key(t[j]) {
        assert t[i] == s[i + 1] && t[j] == s[j + 1];
      }
    }
    if key(s[0]) == k {
      forall x | x in t ensures KeyIsNot(key, k)(x) {
        var m :| 0 <= m < |t| && t[m] == x;
        assert s[m + 1] == x;
      }
      FilterAllKept(t, KeyIsNot(key, k));
    } else {
      var x :| x in s && key(x) == k;
      assert x in t by {
        var m :| 0 <= m < |s| && s[m] == x;
        assert m != 0;
        assert t[m - 1] == x;
      }
      FilterRemovesOne(t, key, k);
    }
  }

  /** Filtering with a condition every row meets keeps every row. */
  lemma {:induction false} FilterAllKept<T(!new)>(s: seq<T>, p: T -> bool)
    requires forall x :: x in s ==> p(x)
    ensures Filter(s, p) == s
  {
    if |s| > 0 {
      assert forall x :: x in s[1..] ==> x in s;
      FilterAllKept(s[1..], p);
      assert [s[0]] + s[1..] == s;
    }
  }

  /** Adding a row whose key is new keeps the primary key unique. */
  lemma AppendFreshKeepsUnique<T(!new), K>(s: seq<T>, x: T, key: T -> K)
    requires UniqueBy(s, key)
    requires forall y :: y in s ==> key(y) != key(x)
    ensures UniqueBy(s + [x], key)
  {
    var r := s + [x];
    forall i, j | 0 <= i < j < |r| ensures key(r[i]) != key(r[j]) {
      assert r[i] == s[i];
      if j < |s| { assert r[j] == s[j]; } else { assert r[i] in s; }
    }
  }
}
