/**
 * Python's `sorted(xs, key=k, reverse=True)`: a stable sort into
 * non-increasing key order. Python keeps equal keys in their input order
 * even under `reverse=True`; the model is an insertion sort that inserts
 * each element after every element whose key is at least its own.
 */
module StoreSort {
  import opened StoreRecords

  /** Keys never increase from left to right. */
  ghost predicate NonIncreasing<T>(s: seq<T>, key: T -> int) {
    forall i, j :: 0 <= i < j < |s| ==> key(s[i]) >= key(s[j])
  }

  /** The elements of `s` whose key is `k`, in their order in `s`. */
  function WithKey<T>(s: seq<T>, key: T -> int, k: int): seq<T> {
    if s == [] then []
    else (if key(s[0]) == k then [s[0]] else []) + WithKey(s[1..], key, k)
  }

  lemma {:induction false} WithKeyAppend<T>(a: seq<T>, b: seq<T>, key: T -> int, k: int)
    ensures WithKey(a + b, key, k) == WithKey(a, key, k) + WithKey(b, key, k)
  {
    if a == [] {
      assert a + b == b;
    } else {
      var head := if key(a[0]) == k then [a[0]] else [];
      var ab := a + b;
      assert ab != [] && ab[0] == a[0] && ab[1..] == a[1..] + b;
      assert WithKey(ab, key, k) == head + WithKey(a[1..] + b, key, k);
      WithKeyAppend(a[1..], b, key, k);
      assert WithKey(a, key, k) == head + WithKey(a[1..], key, k);
    }
  }

  lemma {:induction false} WithKeyAbsent<T>(s: seq<T>, key: T -> int, k: int)
    requires forall i :: 0 <= i < |s| ==> key(s[i]) != k
    ensures WithKey(s, key, k) == []
  {
    if s != [] {
      WithKeyAbsent(s[1..], key, k);
    }
  }

  /** Inserts `x` after every leading element whose key is at least `key(x)`. */
  function Insert<T>(x: T, s: seq<T>, key: T -> int): seq<T> {
    if s == [] then [x]
    else if key(s[0]) >= key(x) then [s[0]] + Insert(x, s[1..], key)
    else [x] + s
  }

  /** `sorted(s, key=key, reverse=True)`. */
  function SortDesc<T>(s: seq<T>, key: T -> int): seq<T> {
    if s == [] then [] else Insert(s[|s| - 1], SortDesc(s[..|s| - 1], key), key)
  }

  lemma {:induction false} InsertPermutes<T>(x: T, s: seq<T>, key: T -> int)
    ensures multiset(Insert(x, s, key)) == multiset(s) + multiset{x}
  {
    if s != [] && key(s[0]) >= key(x) {
      InsertPermutes(x, s[1..], key);
      assert s == [s[0]] + s[1..];
    }
  }

  lemma {:induction false} InsertKeepsOrder<T>(x: T, s: seq<T>, key: T -> int)
    requires NonIncreasing(s, key)
    ensures NonIncreasing(Insert(x, s, key), key)
  {
    if s != [] && key(s[0]) >= key(x) {
      InsertKeepsOrder(x, s[1..], key);
      InsertPermutes(x, s[1..], key);
      var r := Insert(x, s[1..], key);
      forall j | 0 <= j < |r| ensures key(s[0]) >= key(r[j]) {
        assert r[j] in multiset(r);
        assert r[j] == x || r[j] in multiset(s[1..]);
      }
    }
  }

  lemma {:induction false} InsertIsStable<T>(x: T, s: seq<T>, key: T -> int, k: int)
    requires NonIncreasing(s, key)
    ensures WithKey(Insert(x, s, key), key, k) == WithKey(s, key, k) + (if key(x) == k then [x] else [])
  {
    var tail := if key(x) == k then [x] else [];
    if s == [] {
      assert Insert(x, s, key) == [x];
      assert WithKey([x], key, k) == tail + WithKey([x][1..], key, k);
    } else if key(s[0]) >= key(x) {
      var head := if key(s[0]) == k then [s[0]] else [];
      assert NonIncreasing(s[1..], key);
      InsertIsStable(x, s[1..], key, k);
      var r := Insert(x, s[1..], key);
      assert Insert(x, s, key) == [s[0]] + r;
      assert WithKey([s[0]] + r, key, k) == head + WithKey(r, key, k) by {
        assert ([s[0]] + r)[0] == s[0];
        assert ([s[0]] + r)[1..] == r;
      }
      assert WithKey(s, key, k) == head + WithKey(s[1..], key, k);
    } else {
      assert Insert(x, s, key) == [x] + s;
      assert WithKey([x] + s, key, k) == tail + WithKey(s, key, k) by {
        assert ([x] + s)[0] == x;
        assert ([x] + s)[1..] == s;
      }
      if key(x) == k {
        WithKeyAbsent(s, key, k);
      }
    }
  }

  /** The sort returns a permutation of its input. */
  lemma {:induction false} SortPermutes<T>(s: seq<T>, key: T -> int)
    ensures multiset(SortDesc(s, key)) == multiset(s)
    ensures |SortDesc(s, key)| == |s|
  {
    if s != [] {
      var init := s[..|s| - 1];
      SortPermutes(init, key);
      InsertPermutes(s[|s| - 1], SortDesc(init, key), key);
      assert s == init + [s[|s| - 1]];
    }
  }

  /** The sort orders newest first. */
  lemma {:induction false} SortOrders<T>(s: seq<T>, key: T -> int)
    ensures NonIncreasing(SortDesc(s, key), key)
  {
    if s != [] {
      SortOrders(s[..|s| - 1], key);
      InsertKeepsOrder(s[|s| - 1], SortDesc(s[..|s| - 1], key), key);
    }
  }

  /** The sort is stable: elements with equal keys keep their input order. */
  lemma {:induction false} SortIsStable<T>(s: seq<T>, key: T -> int, k: int)
    ensures WithKey(SortDesc(s, key), key, k) == WithKey(s, key, k)
  {
    if s != [] {
      var init, last := s[..|s| - 1], s[|s| - 1];
      var sorted := SortDesc(init, key);
      var tail := if key(last) == k then [last] else [];
      assert WithKey(SortDesc(s, key), key, k) == WithKey(sorted, key, k) + tail by {
        assert SortDesc(s, key) == Insert(last, sorted, key);
        SortOrders(init, key);
        InsertIsStable(last, sorted, key, k);
      }
      assert WithKey(s, key, k) == WithKey(init, key, k) + tail by {
        assert s == init + [last];
        WithKeyAppend(init, [last], key, k);
        assert [last][1..] == [];
      }
      SortIsStable(init, key, k);
    }
  }

  lemma SortedMembers<T>(s: seq<T>, key: T -> int, x: T)
    ensures x in SortDesc(s, key) <==> x in s
  {
    SortPermutes(s, key);
    assert x in SortDesc(s, key) <==> x in multiset(SortDesc(s, key));
    assert x in s <==> x in multiset(s);
  }

  /** The sort key of a mapped record, `x.get('created_at', 0)`. */
  function CreatedAt(s: Store): int {
    s.createdAt
  }

  /** `sort_stores_by_creation_date(stores, reverse=True)`. */
  function SortStoresByCreationDate(stores: seq<Store>): seq<Store> {
    SortDesc(stores, CreatedAt)
  }

  /** The three guarantees of `sort_stores_by_creation_date` together. */
  lemma SortStoresByCreationDateSpec(stores: seq<Store>)
    ensures multiset(SortStoresByCreationDate(stores)) == multiset(stores)
    ensures |SortStoresByCreationDate(stores)| == |stores|
    ensures forall i, j :: 0 <= i < j < |SortStoresByCreationDate(stores)| ==>
      SortStoresByCreationDate(stores)[i].createdAt >= SortStoresByCreationDate(stores)[j].createdAt
    ensures forall k :: WithKey(SortStoresByCreationDate(stores), CreatedAt, k) == WithKey(stores, CreatedAt, k)
  {
    SortPermutes(stores, CreatedAt);
    SortOrders(stores, CreatedAt);
    forall k ensures WithKey(SortStoresByCreationDate(stores), CreatedAt, k) == WithKey(stores, CreatedAt, k) {
      SortIsStable(stores, CreatedAt, k);
    }
  }

  /** Sorting raw entries and then mapping them gives the same list as mapping and then sorting. */
  lemma {:induction false} InsertCommutesWithMap(x: RawStore, s: seq<RawStore>, fmt: int -> string)
    ensures MapStores(Insert(x, s, RawCreatedAt), fmt) == Insert(ToStore(x, fmt), MapStores(s, fmt), CreatedAt)
  {
    if s != [] && RawCreatedAt(s[0]) >= RawCreatedAt(x) {
      InsertCommutesWithMap(x, s[1..], fmt);
      MapStoresAppend([s[0]], Insert(x, s[1..], RawCreatedAt), fmt);
      assert MapStores(s, fmt)[1..] == MapStores(s[1..], fmt);
    } else if s != [] {
      MapStoresAppend([x], s, fmt);
    }
  }

  lemma {:induction false} SortCommutesWithMap(s: seq<RawStore>, fmt: int -> string)
    ensures MapStores(SortDesc(s, RawCreatedAt), fmt) == SortStoresByCreationDate(MapStores(s, fmt))
  {
    if s != [] {
      var init := s[..|s| - 1];
      SortCommutesWithMap(init, fmt);
      InsertCommutesWithMap(s[|s| - 1], SortDesc(init, RawCreatedAt), fmt);
      assert MapStores(s, fmt)[..|s| - 1] == MapStores(init, fmt);
    }
  }
}
