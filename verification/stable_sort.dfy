/** `Array.prototype.sort((a, b) => key(b) - key(a))`: a descending sort by an integer key.
    ECMAScript 2019 and later require `sort` to be stable, so elements with equal keys
    keep their relative order. Modelled as an insertion sort over sequences. */
module StableSort {
  import opened Seqs

  /** Keys never increase from left to right. */
  ghost predicate SortedDesc<T>(s: seq<T>, key: T -> int) {
    forall i, j :: 0 <= i < j < |s| ==> key(s[i]) >= key(s[j])
  }

  /** The elements whose key is `k`. */
  function KeyIs<T>(key: T -> int, k: int): T -> bool {
    x => key(x) == k
  }

  /** Inserts `x` in front of the first element whose key is not larger than its own. */
  function Insert<T>(x: T, s: seq<T>, key: T -> int): (r: seq<T>)
    ensures |r| == |s| + 1
    ensures r[0] == x || (|s| > 0 && r[0] == s[0])
  {
    if s == [] || key(s[0]) <= key(x) then [x] + s else [s[0]] + Insert(x, s[1..], key)
  }

  /** Insertion adds exactly `x`. */
  lemma {:induction false} InsertPerm<T>(x: T, s: seq<T>, key: T -> int)
    ensures multiset(Insert(x, s, key)) == multiset(s) + multiset{x}
  {
    if !(s == [] || key(s[0]) <= key(x)) {
      InsertPerm(x, s[1..], key);
      assert s == [s[0]] + s[1..];
    }
  }

  /** Insertion into a sorted sequence keeps it sorted. */
  lemma {:induction false} InsertSorted<T>(x: T, s: seq<T>, key: T -> int)
    requires SortedDesc(s, key)
    ensures SortedDesc(Insert(x, s, key), key)
  {
    var r := Insert(x, s, key);
    if s == [] || key(s[0]) <= key(x) {
      forall i, j | 0 <= i < j < |r| ensures key(r[i]) >= key(r[j]) {
        if i == 0 {
          assert r[j] == s[j - 1];
          assert key(s[0]) >= key(s[j - 1]) || j == 1;
        } else {
          assert r[i] == s[i - 1] && r[j] == s[j - 1];
        }
      }
    } else {
      var rest := Insert(x, s[1..], key);
      assert SortedDesc(s[1..], key) by {
        forall i, j | 0 <= i < j < |s[1..]| ensures key(s[1..][i]) >= key(s[1..][j]) {
          assert s[1..][i] == s[i + 1] && s[1..][j] == s[j + 1];
        }
      }
      InsertSorted(x, s[1..], key);
      assert r == [s[0]] + rest;
      assert key(s[0]) >= key(rest[0]) by {
        if rest[0] != x {
          assert rest[0] == s[1];
        }
      }
      forall i, j | 0 <= i < j < |r| ensures key(r[i]) >= key(r[j]) {
        if i == 0 {
          assert r[j] == rest[j - 1];
          assert key(rest[0]) >= key(rest[j - 1]) || j == 1;
        } else {
          assert r[i] == rest[i - 1] && r[j] == rest[j - 1];
        }
      }
    }
  }

  /** The stable descending sort: each element is inserted ahead of the already sorted
      elements that followed it and do not have a strictly larger key. */
  function SortDesc<T>(s: seq<T>, key: T -> int): (r: seq<T>)
    ensures |r| == |s|
    ensures multiset(r) == multiset(s)
    ensures SortedDesc(r, key)
  {
    if s == [] then []
    else
      var sorted := SortDesc(s[1..], key);
      InsertPerm(s[0], sorted, key);
      InsertSorted(s[0], sorted, key);
      assert s == [s[0]] + s[1..];
      Insert(s[0], sorted, key)
  }

  /** Inserting `x` adds it in front of the equal-keyed elements and leaves the other
      key classes untouched. */
  lemma {:induction false} InsertStable<T>(x: T, s: seq<T>, key: T -> int, k: int)
    ensures Filter(Insert(x, s, key), KeyIs(key, k))
         == (if key(x) == k then [x] else []) + Filter(s, KeyIs(key, k))
  {
    var p := KeyIs(key, k);
    if s == [] || key(s[0]) <= key(x) {
      FilterConcat([x], s, p);
      FilterSingleton(x, p);
    } else {
      InsertStable(x, s[1..], key, k);
      FilterConcat([s[0]], Insert(x, s[1..], key), p);
      FilterSingleton(s[0], p);
      assert s == [s[0]] + s[1..];
      FilterConcat([s[0]], s[1..], p);
    }
  }

  /** Stability: within every key class the sorted output keeps the input order. */
  lemma {:induction false} SortStable<T>(s: seq<T>, key: T -> int, k: int)
    ensures Filter(SortDesc(s, key), KeyIs(key, k)) == Filter(s, KeyIs(key, k))
  {
    if s != [] {
      var p := KeyIs(key, k);
      var sorted := SortDesc(s[1..], key);
      var head := if key(s[0]) == k then [s[0]] else [];
      SortStable(s[1..], key, k);
      InsertStable(s[0], sorted, key, k);
      assert Filter(SortDesc(s, key), p) == head + Filter(s[1..], p);
      assert s == [s[0]] + s[1..];
      FilterConcat([s[0]], s[1..], p);
      FilterSingleton(s[0], p);
    }
  }

  /** Sortedness and stability pin the result down: any other sequence that is sorted by
      the same key and agrees with `s` on every key class IS SortDesc(s, key). */
  lemma SortDescUnique<T>(s: seq<T>, t: seq<T>, key: T -> int)
    requires SortedDesc(t, key)
    requires forall k :: Filter(t, KeyIs(key, k)) == Filter(s, KeyIs(key, k))
    ensures t == SortDesc(s, key)
  {
    var r := SortDesc(s, key);
    forall k ensures Filter(t, KeyIs(key, k)) == Filter(r, KeyIs(key, k)) {
      SortStable(s, key, k);
    }
    SortedClassesEqual(t, r, key);
  }

  /** Two sorted sequences with the same key classes are equal. */
  lemma {:induction false} SortedClassesEqual<T>(a: seq<T>, b: seq<T>, key: T -> int)
    requires SortedDesc(a, key) && SortedDesc(b, key)
    requires forall k :: Filter(a, KeyIs(key, k)) == Filter(b, KeyIs(key, k))
    ensures a == b
    decreases |a| + |b|
  {
    if a == [] {
      if b != [] {
        FilterHead(b, key);
      }
    } else if b == [] {
      FilterHead(a, key);
    } else {
      var ka, kb := key(a[0]), key(b[0]);
      FilterHead(a, key);
      FilterHead(b, key);
      // a[0] has the largest key in a; b must hold an element of that key, so kb >= ka.
      ClassWitness(b, key, ka);
      ClassWitness(a, key, kb);
      assert ka == kb;
      assert Filter(a, KeyIs(key, ka))[0] == a[0];
      assert Filter(b, KeyIs(key, kb))[0] == b[0];
      assert a[0] == b[0];
      forall k ensures Filter(a[1..], KeyIs(key, k)) == Filter(b[1..], KeyIs(key, k)) {
        assert a == [a[0]] + a[1..];
        assert b == [b[0]] + b[1..];
        FilterConcat([a[0]], a[1..], KeyIs(key, k));
        FilterConcat([b[0]], b[1..], KeyIs(key, k));
        FilterSingleton(a[0], KeyIs(key, k));
        FilterSingleton(b[0], KeyIs(key, k));
        var h := Filter([a[0]], KeyIs(key, k));
        assert h + Filter(a[1..], KeyIs(key, k)) == h + Filter(b[1..], KeyIs(key, k));
        assert Filter(a[1..], KeyIs(key, k)) == (h + Filter(a[1..], KeyIs(key, k)))[|h|..];
        assert Filter(b[1..], KeyIs(key, k)) == (h + Filter(b[1..], KeyIs(key, k)))[|h|..];
      }
      SortedClassesEqual(a[1..], b[1..], key);
      assert a == [a[0]] + a[1..];
      assert b == [b[0]] + b[1..];
    }
  }

  /** The class of the head of a non-empty sequence starts with the head. */
  lemma FilterHead<T>(s: seq<T>, key: T -> int)
    requires s != []
    ensures Filter(s, KeyIs(key, key(s[0]))) == [s[0]] + Filter(s[1..], KeyIs(key, key(s[0])))
  {
  }

  /** A non-empty key class of a sorted sequence has a key no larger than the head's. */
  lemma {:induction false} ClassWitness<T>(s: seq<T>, key: T -> int, k: int)
    requires SortedDesc(s, key)
    requires Filter(s, KeyIs(key, k)) != []
    ensures s != [] && key(s[0]) >= k
  {
    if s == [] {
    } else if key(s[0]) != k {
      ClassWitness(s[1..], key, k);
      assert s[1..][0] == s[1];
    }
  }
}
