/**
 * The list transforms the store actions and the SQL statements apply to a
 * table: update-where (`map` with an object merge on the rows whose key
 * matches), delete-where (`filter` keeping the rows whose key differs),
 * select-where, and lookup by key. Keys are read through a key
 * function so that one definition serves users and posts.
 */
module ListOps {
  import opened Wrappers

  /** Some element has key `id`. */
  predicate HasKey<T(!new)>(s: seq<T>, key: T -> int, id: int)
  {
    exists i | 0 <= i < |s| :: key(s[i]) == id
  }

  /** No two elements share a key (a primary key). */
  ghost predicate UniqueKeys<T(!new)>(s: seq<T>, key: T -> int)
  {
    forall i, j | 0 <= i < j < |s| :: key(s[i]) != key(s[j])
  }

  /** Every key lies in [lo, hi). */
  ghost predicate KeysIn<T(!new)>(s: seq<T>, key: T -> int, lo: int, hi: int)
  {
    forall i | 0 <= i < |s| :: lo <= key(s[i]) < hi
  }

  /** Merging `patch` into any element leaves its key as it was. */
  ghost predicate PreservesKey<T(!new), P>(key: T -> int, merge: (T, P) -> T, patch: P)
  {
    forall x :: key(merge(x, patch)) == key(x)
  }

  /** Every element whose key is `id` is replaced by its merge with `patch`; the rest stay. */
  function UpdateWhere<T(!new), P>(s: seq<T>, key: T -> int, id: int, merge: (T, P) -> T, patch: P): (r: seq<T>)
    ensures |r| == |s|
    ensures forall i | 0 <= i < |s| :: r[i] == if key(s[i]) == id then merge(s[i], patch) else s[i]
  {
    if s == [] then []
    else [if key(s[0]) == id then merge(s[0], patch) else s[0]] + UpdateWhere(s[1..], key, id, merge, patch)
  }

  /** The elements whose key is not `id`, in their original order. */
  function RemoveWhere<T(!new)>(s: seq<T>, key: T -> int, id: int): (r: seq<T>)
    ensures |r| <= |s|
    ensures forall x :: x in r <==> x in s && key(x) != id
  {
    if s == [] then []
    else if key(s[0]) == id then RemoveWhere(s[1..], key, id)
    else [s[0]] + RemoveWhere(s[1..], key, id)
  }

  /** The elements whose key is `id`, in their original order. */
  function Where<T(!new)>(s: seq<T>, key: T -> int, id: int): (r: seq<T>)
    ensures |r| <= |s|
    ensures forall x :: x in r <==> x in s && key(x) == id
  {
    if s == [] then []
    else if key(s[0]) == id then [s[0]] + Where(s[1..], key, id)
    else Where(s[1..], key, id)
  }

  /** An element whose key is `id`, if any. */
  function Find<T(!new)>(s: seq<T>, key: T -> int, id: int): (r: Option<T>)
    ensures r.Some? <==> HasKey(s, key, id)
    ensures r.Some? ==> r.value in s && key(r.value) == id
  {
    if s == [] then None
    else if key(s[0]) == id then Some(s[0])
    else
      var r := Find(s[1..], key, id);
      assert HasKey(s, key, id) ==> key(s[0]) == id || HasKey(s[1..], key, id) by {
        if HasKey(s, key, id) {
          var i :| 0 <= i < |s| && key(s[i]) == id;
          if i > 0 { assert key(s[1..][i - 1]) == id; }
        }
      }
      assert HasKey(s[1..], key, id) ==> HasKey(s, key, id) by {
        if HasKey(s[1..], key, id) {
          var i :| 0 <= i < |s[1..]| && key(s[1..][i]) == id;
          assert key(s[i + 1]) == id;
        }
      }
      r
  }

  /** Either `[x]` or `[]`, as the result of a lookup. */
  function AsSeq<T(!new)>(o: Option<T>): (r: seq<T>)
  {
    match o
    case Some(x) => [x]
    case None => []
  }

  lemma HasKeyCons<T(!new)>(x: T, s: seq<T>, key: T -> int, id: int)
    ensures HasKey([x] + s, key, id) <==> key(x) == id || HasKey(s, key, id)
  {
    var t := [x] + s;
    assert t[0] == x;
    if HasKey(t, key, id) {
      var i :| 0 <= i < |t| && key(t[i]) == id;
      if i > 0 { assert s[i - 1] == t[i]; }
    }
    if HasKey(s, key, id) {
      var i :| 0 <= i < |s| && key(s[i]) == id;
      assert t[i + 1] == s[i];
    }
  }

  /** filter distributes over concatenation: delete keeps the survivors in their original order. */
  lemma {:induction false} RemoveWhereAppend<T(!new)>(s: seq<T>, t: seq<T>, key: T -> int, id: int)
    ensures RemoveWhere(s + t, key, id) == RemoveWhere(s, key, id) + RemoveWhere(t, key, id)
  {
    if s == [] {
      assert s + t == t;
    } else {
      assert (s + t)[0] == s[0];
      assert (s + t)[1..] == s[1..] + t;
      RemoveWhereAppend(s[1..], t, key, id);
    }
  }

  /** Deleting the same key twice is the same as deleting it once. */
  lemma {:induction false} RemoveWhereIdempotent<T(!new)>(s: seq<T>, key: T -> int, id: int)
    ensures RemoveWhere(RemoveWhere(s, key, id), key, id) == RemoveWhere(s, key, id)
  {
    if s != [] {
      RemoveWhereIdempotent(s[1..], key, id);
      if key(s[0]) != id {
        var r := RemoveWhere(s[1..], key, id);
        assert ([s[0]] + r)[0] == s[0];
        assert ([s[0]] + r)[1..] == r;
      }
    }
  }

  /** Deleting a key no element has leaves the list as it was. */
  lemma {:induction false} RemoveWhereAbsent<T(!new)>(s: seq<T>, key: T -> int, id: int)
    requires !HasKey(s, key, id)
    ensures RemoveWhere(s, key, id) == s
  {
    if s != [] {
      HasKeyCons(s[0], s[1..], key, id);
      assert [s[0]] + s[1..] == s;
      RemoveWhereAbsent(s[1..], key, id);
    }
  }

  /** Selecting a key no element has gives nothing. */
  lemma {:induction false} WhereAbsent<T(!new)>(s: seq<T>, key: T -> int, id: int)
    requires !HasKey(s, key, id)
    ensures Where(s, key, id) == []
  {
    if s != [] {
      HasKeyCons(s[0], s[1..], key, id);
      assert [s[0]] + s[1..] == s;
      WhereAbsent(s[1..], key, id);
    }
  }

  /** Updating a key no element has leaves the list as it was. */
  lemma UpdateWhereAbsent<T(!new), P>(s: seq<T>, key: T -> int, id: int, merge: (T, P) -> T, patch: P)
    requires !HasKey(s, key, id)
    ensures UpdateWhere(s, key, id, merge, patch) == s
  {
    var r := UpdateWhere(s, key, id, merge, patch);
    forall i | 0 <= i < |s| ensures r[i] == s[i] {
      assert key(s[i]) != id;
    }
  }

  /** Delete removes exactly the elements with the key: they and the survivors together are the old list. */
  lemma {:induction false} PartitionByKey<T(!new)>(s: seq<T>, key: T -> int, id: int)
    ensures multiset(Where(s, key, id)) + multiset(RemoveWhere(s, key, id)) == multiset(s)
    ensures |Where(s, key, id)| + |RemoveWhere(s, key, id)| == |s|
  {
    if s != [] {
      PartitionByKey(s[1..], key, id);
      assert s == [s[0]] + s[1..];
      assert multiset(s) == multiset([s[0]]) + multiset(s[1..]);
    }
  }

  lemma UniqueCons<T(!new)>(x: T, s: seq<T>, key: T -> int)
    ensures UniqueKeys([x] + s, key) <==> UniqueKeys(s, key) && !HasKey(s, key, key(x))
  {
    var t := [x] + s;
    if UniqueKeys(t, key) {
      forall i, j | 0 <= i < j < |s| ensures key(s[i]) != key(s[j]) {
        assert s[i] == t[i + 1] && s[j] == t[j + 1];
      }
      forall i | 0 <= i < |s| ensures key(s[i]) != key(x) {
        assert t[0] == x && t[i + 1] == s[i];
      }
    }
    if UniqueKeys(s, key) && !HasKey(s, key, key(x)) {
      forall i, j | 0 <= i < j < |t| ensures key(t[i]) != key(t[j]) {
        if i == 0 {
          assert t[j] == s[j - 1];
        } else {
          assert t[i] == s[i - 1] && t[j] == s[j - 1];
        }
      }
    }
  }

  /** Under a primary key, selecting by key yields at most the one element a lookup finds. */
  lemma {:induction false} WhereUnique<T(!new)>(s: seq<T>, key: T -> int, id: int)
    requires UniqueKeys(s, key)
    ensures Where(s, key, id) == AsSeq(Find(s, key, id))
  {
    if s != [] {
      UniqueCons(s[0], s[1..], key);
      assert [s[0]] + s[1..] == s;
      if key(s[0]) == id {
        WhereAbsent(s[1..], key, id);
      } else {
        WhereUnique(s[1..], key, id);
      }
    }
  }

  /** Under a primary key and a key-preserving merge, the rows an update touches are exactly the merged lookup result. */
  lemma {:induction false} UpdatedRows<T(!new), P>(s: seq<T>, key: T -> int, id: int, merge: (T, P) -> T, patch: P)
    requires UniqueKeys(s, key)
    requires PreservesKey(key, merge, patch)
    ensures Where(UpdateWhere(s, key, id, merge, patch), key, id)
         == match Find(s, key, id) case Some(x) => [merge(x, patch)] case None => []
  {
    if s != [] {
      UniqueCons(s[0], s[1..], key);
      assert [s[0]] + s[1..] == s;
      var u := UpdateWhere(s, key, id, merge, patch);
      var rest := UpdateWhere(s[1..], key, id, merge, patch);
      assert u == [u[0]] + rest;
      if key(s[0]) == id {
        assert key(merge(s[0], patch)) == key(s[0]);
        UpdateWhereAbsent(s[1..], key, id, merge, patch);
        WhereAbsent(s[1..], key, id);
      } else {
        UpdatedRows(s[1..], key, id, merge, patch);
      }
    }
  }

  /** A key-preserving update keeps every key in place, so it keeps the key predicates. */
  lemma UpdateWhereKeys<T(!new), P>(s: seq<T>, key: T -> int, id: int, merge: (T, P) -> T, patch: P, k: int)
    requires PreservesKey(key, merge, patch)
    ensures var r := UpdateWhere(s, key, id, merge, patch);
      && (HasKey(r, key, k) <==> HasKey(s, key, k))
      && (UniqueKeys(s, key) ==> UniqueKeys(r, key))
      && (forall lo, hi :: KeysIn(s, key, lo, hi) ==> KeysIn(r, key, lo, hi))
  {
    var r := UpdateWhere(s, key, id, merge, patch);
    assert forall i | 0 <= i < |s| :: key(r[i]) == key(s[i]) by {
      forall i | 0 <= i < |s| ensures key(r[i]) == key(s[i]) {
        assert key(merge(s[i], patch)) == key(s[i]);
      }
    }
    if HasKey(r, key, k) {
      var i :| 0 <= i < |r| && key(r[i]) == k;
    }
    if HasKey(s, key, k) {
      var i :| 0 <= i < |s| && key(s[i]) == k;
      assert key(r[i]) == k;
    }
  }

  /** Delete keeps keys unique and in range, and keeps every other key present. */
  lemma {:induction false} RemoveWhereKeys<T(!new)>(s: seq<T>, key: T -> int, id: int, k: int)
    ensures var r := RemoveWhere(s, key, id);
      && (HasKey(r, key, k) <==> HasKey(s, key, k) && k != id)
      && (UniqueKeys(s, key) ==> UniqueKeys(r, key))
      && (forall lo, hi :: KeysIn(s, key, lo, hi) ==> KeysIn(r, key, lo, hi))
  {
    if s != [] {
      var r := RemoveWhere(s, key, id);
      var rest := RemoveWhere(s[1..], key, id);
      RemoveWhereKeys(s[1..], key, id, k);
      assert [s[0]] + s[1..] == s;
      HasKeyCons(s[0], s[1..], key, k);
      UniqueCons(s[0], s[1..], key);
      if key(s[0]) != id {
        assert r == [s[0]] + rest;
        HasKeyCons(s[0], rest, key, k);
        UniqueCons(s[0], rest, key);
        RemoveWhereKeys(s[1..], key, id, key(s[0]));
        forall lo, hi | KeysIn(s, key, lo, hi) ensures KeysIn(r, key, lo, hi) {
          assert KeysIn(s[1..], key, lo, hi) by {
            forall i | 0 <= i < |s[1..]| ensures lo <= key(s[1..][i]) < hi {
              assert s[1..][i] == s[i + 1];
            }
          }
          forall i | 0 <= i < |r| ensures lo <= key(r[i]) < hi {
            if i > 0 { assert r[i] == rest[i - 1]; }
          }
        }
      } else {
        forall lo, hi | KeysIn(s, key, lo, hi) ensures KeysIn(r, key, lo, hi) {
          assert KeysIn(s[1..], key, lo, hi) by {
            forall i | 0 <= i < |s[1..]| ensures lo <= key(s[1..][i]) < hi {
              assert s[1..][i] == s[i + 1];
            }
          }
        }
      }
    }
  }

  /** Appending an element with a fresh key above every other keeps the key predicates. */
  lemma AppendKeys<T(!new)>(s: seq<T>, x: T, key: T -> int, lo: int, hi: int)
    requires UniqueKeys(s, key) && KeysIn(s, key, lo, hi)
    requires lo <= key(x) == hi
    ensures UniqueKeys(s + [x], key) && KeysIn(s + [x], key, lo, hi + 1)
    ensures !HasKey(s, key, key(x))
  {
    var t := s + [x];
    forall i, j | 0 <= i < j < |t| ensures key(t[i]) != key(t[j]) {
      if j == |s| { assert t[i] == s[i]; } else { assert t[i] == s[i] && t[j] == s[j]; }
    }
    forall i | 0 <= i < |t| ensures lo <= key(t[i]) < hi + 1 {
      if i < |s| { assert t[i] == s[i]; }
    }
  }

  /** Under a primary key, an element is determined by its key. */
  lemma UniqueDetermines<T(!new)>(s: seq<T>, key: T -> int, x: T, y: T)
    requires UniqueKeys(s, key)
    requires x in s && y in s && key(x) == key(y)
    ensures x == y
  {
    var i :| 0 <= i < |s| && s[i] == x;
    var j :| 0 <= j < |s| && s[j] == y;
    assert !(i < j) && !(j < i);
  }
}
