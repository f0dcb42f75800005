/** Table scans the controllers delegate to the database: selecting the keys
    whose row passes a predicate, counting them (SQL `COUNT`), and ordering the
    selected rows by an integer key (SQL `ORDER BY`). */
module Collections {

  predicate StrictlyIncreasing(s: seq<int>)
  {
    forall i, j :: 0 <= i < j < |s| ==> s[i] < s[j]
  }

  predicate NoDup<T(==)>(s: seq<T>)
  {
    forall i, j :: 0 <= i < j < |s| ==> s[i] != s[j]
  }

  predicate SortedBy<T>(s: seq<T>, key: T -> int)
  {
    forall i, j :: 0 <= i < j < |s| ==> key(s[i]) <= key(s[j])
  }

  /** The keys in 1..n whose row passes `keep`, in ascending order. */
  function KeysWhere<V>(m: map<int, V>, n: nat, keep: V -> bool): (r: seq<int>)
    ensures forall k :: k in r <==> 1 <= k <= n && k in m && keep(m[k])
    ensures forall i :: 0 <= i < |r| ==> r[i] <= n
    ensures StrictlyIncreasing(r)
  {
    if n == 0 then []
    else
      var below := KeysWhere(m, n - 1, keep);
      var here := if n in m && keep(m[n]) then [n] else [];
      assert forall i :: 0 <= i < |below| ==> below[i] < n;
      below + here
  }

  /** The keys in 1..n whose row passes `keep`, as a set. */
  function Selected<V>(m: map<int, V>, n: nat, keep: V -> bool): set<int>
  {
    set k | k in m && 1 <= k <= n && keep(m[k])
  }

  /** The number of keys in 1..n whose row passes `keep`, counted one key at a time. */
  function CountWhere<V>(m: map<int, V>, n: nat, keep: V -> bool): (c: nat)
    ensures c == |Selected(m, n, keep)|
  {
    if n == 0 then
      assert Selected(m, n, keep) == {};
      0
    else
      var below := Selected(m, n - 1, keep);
      var here := if n in m && keep(m[n]) then {n} else {};
      assert Selected(m, n, keep) == below + here;
      assert below !! here;
      CountWhere(m, n - 1, keep) + |here|
  }

  /** A subset is no larger than its superset. */
  lemma SubsetCard<T>(a: set<T>, b: set<T>)
    requires a <= b
    ensures |a| <= |b|
  {
    assert b == a + (b - a);
  }

  /** Prepending a new element keeps a sequence free of duplicates. */
  lemma NoDupCons<T>(x: T, s: seq<T>)
    requires NoDup(s) && x !in s
    ensures NoDup([x] + s)
  {
    forall i, j | 0 <= i < j < |[x] + s| ensures ([x] + s)[i] != ([x] + s)[j] {
      if i == 0 {
        assert ([x] + s)[j] == s[j - 1];
      } else {
        assert ([x] + s)[i] == s[i - 1] && ([x] + s)[j] == s[j - 1];
      }
    }
  }

  /** Inserts `x` into a sequence sorted by `key`, before the first element
      whose key is not smaller. */
  function InsertBy<T(==,!new)>(x: T, s: seq<T>, key: T -> int): (r: seq<T>)
    requires SortedBy(s, key)
    ensures forall y :: y in r <==> y == x || y in s
    ensures SortedBy(r, key)
    ensures multiset(r) == multiset(s) + multiset{x}
  {
    if |s| == 0 then [x]
    else if key(x) <= key(s[0]) then [x] + s
    else
      var tail := InsertBy(x, s[1..], key);
      assert s == [s[0]] + s[1..];
      assert forall y :: y in tail ==> key(s[0]) <= key(y);
      [s[0]] + tail
  }

  /** Inserting an element that is not yet present keeps the sequence free of duplicates. */
  lemma {:induction false} InsertByNoDup<T(!new)>(x: T, s: seq<T>, key: T -> int)
    requires SortedBy(s, key) && NoDup(s) && x !in s
    ensures NoDup(InsertBy(x, s, key))
  {
    if |s| == 0 {
    } else if key(x) <= key(s[0]) {
      NoDupCons(x, s);
    } else {
      assert s == [s[0]] + s[1..];
      InsertByNoDup(x, s[1..], key);
      NoDupCons(s[0], InsertBy(x, s[1..], key));
    }
  }

  /** Insertion sort by `key`: a permutation of `s` ordered by non-decreasing key. */
  function SortBy<T(==,!new)>(s: seq<T>, key: T -> int): (r: seq<T>)
    ensures forall y :: y in r <==> y in s
    ensures SortedBy(r, key)
    ensures multiset(r) == multiset(s)
    ensures NoDup(s) ==> NoDup(r)
  {
    if |s| == 0 then []
    else
      var rest := SortBy(s[1..], key);
      assert s == [s[0]] + s[1..];
      if NoDup(s) then
        assert s[0] !in rest;
        InsertByNoDup(s[0], rest, key);
        InsertBy(s[0], rest, key)
      else InsertBy(s[0], rest, key)
  }

  /** The rows of `m` stored under the keys 1..n that pass `keep`, ordered by
      non-decreasing `key`, each exactly once. `idOf` reads back the key a row
      is stored under. */
  function SelectSorted<V(==,!new)>(m: map<int, V>, n: nat, keep: V -> bool, key: V -> int, idOf: V -> int): (r: seq<V>)
    requires forall k :: k in m ==> idOf(m[k]) == k
    ensures forall x :: x in r <==> 1 <= idOf(x) <= n && idOf(x) in m && m[idOf(x)] == x && keep(x)
    ensures SortedBy(r, key)
    ensures NoDup(r)
  {
    var ids := KeysWhere(m, n, keep);
    var rows := seq(|ids|, i requires 0 <= i < |ids| => m[ids[i]]);
    assert NoDup(rows) by {
      forall i, j | 0 <= i < j < |rows| ensures rows[i] != rows[j] {
        assert idOf(rows[i]) == ids[i] && idOf(rows[j]) == ids[j];
      }
    }
    assert forall x :: x in rows <==> 1 <= idOf(x) <= n && idOf(x) in m && m[idOf(x)] == x && keep(x) by {
      forall x ensures x in rows <==> 1 <= idOf(x) <= n && idOf(x) in m && m[idOf(x)] == x && keep(x) {
        if x in rows {
          var i :| 0 <= i < |rows| && rows[i] == x;
          assert ids[i] in ids;
        }
        if 1 <= idOf(x) <= n && idOf(x) in m && m[idOf(x)] == x && keep(x) {
          assert idOf(x) in ids;
          var i :| 0 <= i < |ids| && ids[i] == idOf(x);
          assert rows[i] == x;
        }
      }
    }
    SortBy(rows, key)
  }
}
