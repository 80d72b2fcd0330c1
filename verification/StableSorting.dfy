/** Sorting that keeps elements with equal keys in their order, and why there is only one such result. */
module StableSorting {
  /** Insertion behind every element that is not greater. */
  function Insert<T>(s: seq<T>, x: T, key: T -> int): seq<T> {
    if s == [] then [x]
    else
      var n := |s| - 1;
      if key(s[n]) <= key(x) then s + [x] else Insert(s[..n], x, key) + [s[n]]
  }

  /** The host's sort, which keeps elements with equal keys in their order. */
  function StableSort<T>(s: seq<T>, key: T -> int): seq<T> {
    if s == [] then [] else Insert(StableSort(s[..|s| - 1], key), s[|s| - 1], key)
  }

  ghost predicate SortedBy<T>(s: seq<T>, key: T -> int) {
    forall i, j :: 0 <= i < j < |s| ==> key(s[i]) <= key(s[j])
  }

  /** The elements with a given key, in order. */
  function Class<T>(s: seq<T>, key: T -> int, k: int): seq<T> {
    if s == [] then [] else Class(s[..|s| - 1], key, k) + if key(s[|s| - 1]) == k then [s[|s| - 1]] else []
  }

  /** Sorted, and the elements of every key as before, in the same order: by StableSortIsUnique
      this determines the sequence. */
  ghost predicate StablySorted<T>(s: seq<T>, r: seq<T>, key: T -> int) {
    SortedBy(r, key) && forall k :: Class(r, key, k) == Class(s, key, k)
  }

  lemma {:induction false} InsertSorted<T>(s: seq<T>, x: T, key: T -> int)
    requires SortedBy(s, key)
    ensures SortedBy(Insert(s, x, key), key)
  {
    if s != [] {
      var n := |s| - 1;
      if key(s[n]) > key(x) {
        InsertSorted(s[..n], x, key);
        var inner := Insert(s[..n], x, key);
        forall i | 0 <= i < |inner| ensures key(inner[i]) <= key(s[n]) {
          InsertMember(s[..n], x, key, inner[i]);
        }
      }
    }
  }

  lemma ClassSnoc<T>(s: seq<T>, x: T, key: T -> int, k: int)
    ensures Class(s + [x], key, k) == Class(s, key, k) + if key(x) == k then [x] else []
  {
    assert (s + [x])[..|s|] == s;
  }

  lemma InsertLast<T>(s: seq<T>, x: T, key: T -> int)
    requires s != []
    ensures var n := |s| - 1;
            Insert(s, x, key) == if key(s[n]) <= key(x) then s + [x] else Insert(s[..n], x, key) + [s[n]]
  {
  }

  lemma ClassOfOne<T>(x: T, key: T -> int, k: int)
    ensures Class([], key, k) == [] && Class([x], key, k) == if key(x) == k then [x] else []
  {
    assert [x][..0] == [];
  }

  lemma {:induction false} InsertClass<T>(s: seq<T>, x: T, key: T -> int, k: int)
    requires SortedBy(s, key)
    ensures Class(Insert(s, x, key), key, k) == Class(s, key, k) + if key(x) == k then [x] else []
  {
    hide SortedBy, Insert, Class;
    if s == [] {
      InsertIntoNone(x, key);
      ClassOfOne(x, key, k);
    } else {
      var n := |s| - 1;
      InsertLast(s, x, key);
      if key(s[n]) <= key(x) {
        ClassSnoc(s, x, key, k);
      } else {
        PrefixSorted(s, n, key);
        InsertClass(s[..n], x, key, k);
        ClassSnoc(Insert(s[..n], x, key), s[n], key, k);
        ClassSnoc(s[..n], s[n], key, k);
        assert s[..n] + [s[n]] == s;
        if key(s[n]) == k {
          assert Class(Insert(s[..n], x, key), key, k) == Class(s[..n], key, k) + [];
        }
      }
    }
  }

  lemma InsertIntoNone<T>(x: T, key: T -> int)
    ensures Insert([], x, key) == [x]
  {
  }

  lemma PrefixSorted<T>(s: seq<T>, n: nat, key: T -> int)
    requires SortedBy(s, key) && n <= |s|
    ensures SortedBy(s[..n], key)
  {
  }

  lemma {:induction false} StableSortSorts<T>(s: seq<T>, key: T -> int)
    ensures StablySorted(s, StableSort(s, key), key)
  {
    hide SortedBy, Insert;
    if s == [] {
      EmptySorted(s, key);
    } else {
      var n := |s| - 1;
      var inner := StableSort(s[..n], key);
      StableSortSorts(s[..n], key);
      InsertSorted(inner, s[n], key);
      forall k ensures Class(StableSort(s, key), key, k) == Class(s, key, k) {
        InsertClass(inner, s[n], key, k);
      }
    }
  }

  lemma EmptySorted<T>(s: seq<T>, key: T -> int)
    requires s == []
    ensures SortedBy(s, key)
  {
  }

  lemma {:induction false} StableSortMember<T>(s: seq<T>, key: T -> int, x: T)
    ensures x in StableSort(s, key) <==> x in s
  {
    if s != [] {
      var n := |s| - 1;
      StableSortMember(s[..n], key, x);
      InsertMember(StableSort(s[..n], key), s[n], key, x);
      assert s == s[..n] + [s[n]];
    }
  }

  lemma {:induction false} InsertMember<T>(s: seq<T>, x: T, key: T -> int, y: T)
    ensures y in Insert(s, x, key) <==> y in s || y == x
  {
    if s != [] {
      var n := |s| - 1;
      assert s == s[..n] + [s[n]];
      if key(s[n]) > key(x) {
        InsertMember(s[..n], x, key, y);
      }
    }
  }

  lemma {:induction false} SortedIsFixed<T>(s: seq<T>, key: T -> int)
    requires SortedBy(s, key)
    ensures StableSort(s, key) == s
  {
    if s != [] {
      var n := |s| - 1;
      SortedIsFixed(s[..n], key);
      if n > 0 {
        assert key(s[n - 1]) <= key(s[n]);
      }
    }
  }

  lemma {:induction false} ClassMember<T>(s: seq<T>, key: T -> int, k: int, x: T)
    ensures x in Class(s, key, k) <==> x in s && key(x) == k
  {
    if s != [] {
      var n := |s| - 1;
      ClassMember(s[..n], key, k, x);
      assert s == s[..n] + [s[n]];
    }
  }

  /** Two stably sorted versions of a sequence are the same sequence. */
  lemma {:induction false} StableSortIsUnique<T>(a: seq<T>, b: seq<T>, key: T -> int)
    requires SortedBy(a, key) && SortedBy(b, key) && forall k :: Class(a, key, k) == Class(b, key, k)
    ensures a == b
  {
    hide SortedBy;
    if a != [] && b != [] {
      var m, n := |a| - 1, |b| - 1;
      LastClass(a, b, key);
      LastClass(b, a, key);
      PrefixSorted(a, m, key);
      PrefixSorted(b, n, key);
      var k := key(a[m]);
      assert Class(a, key, k) == Class(a[..m], key, k) + [a[m]];
      assert Class(b, key, k) == Class(b[..n], key, k) + [b[n]];
      assert a[m] == Class(a, key, k)[|Class(a, key, k)| - 1] == b[n];
      forall j ensures Class(a[..m], key, j) == Class(b[..n], key, j) {
        assert Class(a, key, j) == Class(b, key, j);
        if j == k {
          assert Class(a[..m], key, k) == Class(a, key, k)[..|Class(a, key, k)| - 1];
          assert Class(b[..n], key, k) == Class(b, key, k)[..|Class(b, key, k)| - 1];
        } else {
          assert Class(a[..m], key, j) + [] == Class(a[..m], key, j);
          assert Class(b[..n], key, j) + [] == Class(b[..n], key, j);
        }
      }
      StableSortIsUnique(a[..m], b[..n], key);
      assert a == a[..m] + [a[m]] && b == b[..n] + [b[n]];
    } else {
      SomeClass(a, key);
      SomeClass(b, key);
    }
  }

  lemma SomeClass<T>(a: seq<T>, key: T -> int)
    ensures a != [] ==> Class(a, key, key(a[|a| - 1])) != []
  {
  }

  lemma LastClass<T>(a: seq<T>, b: seq<T>, key: T -> int)
    requires a != [] && b != [] && SortedBy(b, key)
    requires Class(a, key, key(a[|a| - 1])) == Class(b, key, key(a[|a| - 1]))
    ensures key(a[|a| - 1]) <= key(b[|b| - 1])
  {
    hide Class;
    var k := key(a[|a| - 1]);
    SomeClass(a, key);
    var x := Class(b, key, k)[0];
    ClassMember(b, key, k, x);
    var i :| 0 <= i < |b| && b[i] == x;
  }
}
