/** Stable sorting by a key. */
module StableSorts {
  /** Insert before the first element whose key is greater: equal keys keep their order. */
  function InsertByKey<T>(t: T, sorted: seq<T>, key: T -> real): seq<T> {
    if sorted == [] || key(t) <= key(sorted[0]) then [t] + sorted
    else [sorted[0]] + InsertByKey(t, sorted[1..], key)
  }

  /** The standard library's stable sort, as a function of its input. */
  function SortByKey<T>(ts: seq<T>, key: T -> real): seq<T> {
    if ts == [] then [] else InsertByKey(ts[0], SortByKey(ts[1..], key), key)
  }

  ghost predicate Sorted<T>(ts: seq<T>, key: T -> real) {
    forall i, j :: 0 <= i < j < |ts| ==> key(ts[i]) <= key(ts[j])
  }

  /** The elements of one key, in order. */
  function WithKey<T>(ts: seq<T>, key: T -> real, k: real): seq<T> {
    if ts == [] then [] else
      (if key(ts[0]) == k then [ts[0]] else []) + WithKey(ts[1..], key, k)
  }

  /** Sorted, and the elements of each key are those of the input in their order. */
  ghost predicate StableSortOf<T>(out: seq<T>, ts: seq<T>, key: T -> real) {
    && Sorted(out, key)
    && SameByKey(out, ts, key)
  }

  lemma {:induction false} InsertPermutes<T>(t: T, sorted: seq<T>, key: T -> real)
    ensures multiset(InsertByKey(t, sorted, key)) == multiset([t]) + multiset(sorted)
    decreases |sorted|
  {
    if !(sorted == [] || key(t) <= key(sorted[0])) {
      InsertPermutes(t, sorted[1..], key);
      assert sorted == [sorted[0]] + sorted[1..];
    }
  }

  lemma {:induction false} InsertSorts<T>(t: T, sorted: seq<T>, key: T -> real)
    requires Sorted(sorted, key)
    ensures Sorted(InsertByKey(t, sorted, key), key)
    decreases |sorted|
  {
    if !(sorted == [] || key(t) <= key(sorted[0])) {
      var rest := InsertByKey(t, sorted[1..], key);
      InsertSorts(t, sorted[1..], key);
      InsertPermutes(t, sorted[1..], key);
      forall j | 0 <= j < |rest| ensures key(sorted[0]) <= key(rest[j]) {
        assert rest[j] in multiset(rest);
        assert rest[j] == t || rest[j] in sorted[1..];
      }
    }
  }

  lemma {:induction false} InsertKeepsOrder<T>(t: T, sorted: seq<T>, key: T -> real, k: real)
    requires Sorted(sorted, key)
    ensures WithKey(InsertByKey(t, sorted, key), key, k)
         == (if key(t) == k then [t] else []) + WithKey(sorted, key, k)
    decreases |sorted|
  {
    if sorted == [] || key(t) <= key(sorted[0]) {
      WithKeyCons(t, sorted, key, k);
    } else {
      var head, rest := sorted[0], sorted[1..];
      InsertKeepsOrder(t, rest, key, k);
      WithKeyCons(head, InsertByKey(t, rest, key), key, k);
      WithKeyCons(head, rest, key, k);
      assert sorted == [head] + rest;
      NotBothHave(key, t, head, k, WithKey(rest, key, k));
    }
  }

  /** Two elements of different keys cannot both have key `k`. */
  lemma NotBothHave<T>(key: T -> real, t: T, head: T, k: real, rest: seq<T>)
    requires key(t) != key(head)
    ensures (if key(head) == k then [head] else []) + ((if key(t) == k then [t] else []) + rest)
         == (if key(t) == k then [t] else []) + ((if key(head) == k then [head] else []) + rest)
  {
    assert [] + rest == rest;
  }

  lemma WithKeyCons<T>(t: T, ts: seq<T>, key: T -> real, k: real)
    ensures WithKey([t] + ts, key, k) == (if key(t) == k then [t] else []) + WithKey(ts, key, k)
  {
    assert ([t] + ts)[1..] == ts;
  }

  lemma {:induction false} SortIsStable<T>(ts: seq<T>, key: T -> real)
    ensures StableSortOf(SortByKey(ts, key), ts, key)
    ensures multiset(SortByKey(ts, key)) == multiset(ts)
    decreases |ts|
  {
    if ts != [] {
      var tail := SortByKey(ts[1..], key);
      SortIsStable(ts[1..], key);
      InsertSorts(ts[0], tail, key);
      InsertPermutes(ts[0], tail, key);
      assert ts == [ts[0]] + ts[1..];
      forall k ensures WithKey(SortByKey(ts, key), key, k) == WithKey(ts, key, k) {
        InsertKeepsOrder(ts[0], tail, key, k);
      }
    }
  }

  lemma {:induction false} WithKeyOfAbsent<T>(ts: seq<T>, key: T -> real, k: real)
    ensures WithKey(ts, key, k) == [] <==> forall t :: t in ts ==> key(t) != k
    decreases |ts|
  {
    if ts != [] {
      WithKeyOfAbsent(ts[1..], key, k);
      assert forall t :: t in ts <==> t == ts[0] || t in ts[1..];
    }
  }

  /** For every key, the same elements in the same order. */
  ghost predicate SameByKey<T>(a: seq<T>, b: seq<T>, key: T -> real) {
    forall k :: WithKey(a, key, k) == WithKey(b, key, k)
  }

  /** Equal heads leave equal tails. */
  lemma TailsAgree<T>(a: seq<T>, b: seq<T>, key: T -> real)
    requires a != [] && b != [] && a[0] == b[0] && SameByKey(a, b, key)
    ensures SameByKey(a[1..], b[1..], key)
  {
    forall k ensures WithKey(a[1..], key, k) == WithKey(b[1..], key, k) {
      var wa, wb := WithKey(a[1..], key, k), WithKey(b[1..], key, k);
      assert WithKey(a, key, k) == WithKey(b, key, k);
      assert ([a[0]] + wa)[1..] == wa && ([b[0]] + wb)[1..] == wb;
      assert [] + wa == wa && [] + wb == wb;
    }
  }

  lemma HeadsAgree<T>(a: seq<T>, b: seq<T>, key: T -> real)
    requires Sorted(a, key) && Sorted(b, key) && a != [] && SameByKey(a, b, key)
    ensures b != [] && a[0] == b[0]
  {
    var ka := key(a[0]);
    assert WithKey(a, key, ka) == WithKey(b, key, ka);
    WithKeyOfAbsent(b, key, ka);
    var kb := key(b[0]);
    assert WithKey(a, key, kb) == WithKey(b, key, kb);
    WithKeyOfAbsent(a, key, kb);
    assert ka == kb;
    assert WithKey(a, key, ka)[0] == a[0] && WithKey(b, key, ka)[0] == b[0];
  }

  lemma OwnKeyPresent<T>(ts: seq<T>, key: T -> real)
    ensures ts == [] || WithKey(ts, key, key(ts[0])) != []
  {
  }

  /** There is only one stable sort, so it does not matter how it is computed. */
  lemma {:induction false} StableSortUnique<T>(a: seq<T>, b: seq<T>, key: T -> real)
    requires Sorted(a, key) && Sorted(b, key) && SameByKey(a, b, key)
    ensures a == b
    decreases |a|
  {
    if a == [] {
      assert forall k :: WithKey(a, key, k) == [];
      OwnKeyPresent(b, key);
    } else {
      HeadsAgree(a, b, key);
      TailsAgree(a, b, key);
      StableSortUnique(a[1..], b[1..], key);
      assert a == [a[0]] + a[1..] && b == [b[0]] + b[1..];
    }
  }
}
