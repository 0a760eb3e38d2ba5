/** The array primitives the forum store is written with: `filter`, `find`/`findIndex`,
    element-wise `map` and `slice(0, n)`, as functions over sequences. */
module Seqs {
  import opened Wrappers

  /** `Array.prototype.filter`: the elements satisfying `p`, in their original order. */
  function Filter<T>(s: seq<T>, p: T -> bool): (r: seq<T>)
    ensures |r| <= |s|
    ensures forall i :: 0 <= i < |r| ==> p(r[i])
  {
    if s == [] then []
    else if p(s[0]) then [s[0]] + Filter(s[1..], p)
    else Filter(s[1..], p)
  }

  /** Soundness and completeness of Filter: exactly the qualifying elements survive. */
  lemma {:induction false} FilterMembers<T>(s: seq<T>, p: T -> bool)
    ensures forall x :: x in Filter(s, p) <==> x in s && p(x)
    ensures multiset(Filter(s, p)) <= multiset(s)
  {
    if s != [] {
      FilterMembers(s[1..], p);
      assert s == [s[0]] + s[1..];
    }
  }

  /** Filtering distributes over concatenation. */
  lemma {:induction false} FilterConcat<T>(a: seq<T>, b: seq<T>, p: T -> bool)
    ensures Filter(a + b, p) == Filter(a, p) + Filter(b, p)
  {
    if a == [] {
      assert a + b == b;
    } else {
      assert (a + b)[1..] == a[1..] + b;
      FilterConcat(a[1..], b, p);
    }
  }

  /** Filtering a sequence none of whose elements qualify gives nothing. */
  lemma {:induction false} FilterNone<T>(s: seq<T>, p: T -> bool)
    requires forall i :: 0 <= i < |s| ==> !p(s[i])
    ensures Filter(s, p) == []
  {
    if s != [] {
      FilterNone(s[1..], p);
    }
  }

  /** Two filters commute. */
  lemma {:induction false} FilterCommute<T>(s: seq<T>, p: T -> bool, q: T -> bool)
    ensures Filter(Filter(s, p), q) == Filter(Filter(s, q), p)
  {
    if s != [] {
      FilterCommute(s[1..], p, q);
      if p(s[0]) {
        assert Filter(s, p)[1..] == Filter(s[1..], p);
      }
      if q(s[0]) {
        assert Filter(s, q)[1..] == Filter(s[1..], q);
      }
    }
  }

  /** Filter with one element, used when splitting a sequence around an index. */
  lemma FilterSingleton<T>(x: T, p: T -> bool)
    ensures Filter([x], p) == if p(x) then [x] else []
  {
    assert [x][1..] == [];
  }

  /** `Array.prototype.findIndex` as an Option: the FIRST index whose element satisfies `p`. */
  function FirstIndex<T>(s: seq<T>, p: T -> bool): (r: Option<nat>)
    ensures r.Some? ==> r.value < |s| && p(s[r.value])
    ensures r.Some? ==> forall j :: 0 <= j < r.value ==> !p(s[j])
    ensures r.None? <==> forall j :: 0 <= j < |s| ==> !p(s[j])
  {
    FirstIndexFrom(s, p, 0)
  }

  function FirstIndexFrom<T>(s: seq<T>, p: T -> bool, from: nat): (r: Option<nat>)
    requires from <= |s|
    requires forall j :: 0 <= j < from ==> !p(s[j])
    ensures r.Some? ==> from <= r.value < |s| && p(s[r.value])
    ensures r.Some? ==> forall j :: 0 <= j < r.value ==> !p(s[j])
    ensures r.None? <==> forall j :: 0 <= j < |s| ==> !p(s[j])
    decreases |s| - from
  {
    if from == |s| then None
    else if p(s[from]) then Some(from)
    else FirstIndexFrom(s, p, from + 1)
  }

  /** Appending an element that fails `p` does not move the first match. */
  lemma FirstIndexAppend<T>(s: seq<T>, x: T, p: T -> bool)
    requires !p(x)
    ensures FirstIndex(s + [x], p) == FirstIndex(s, p)
  {
    var a := FirstIndex(s + [x], p);
    var b := FirstIndex(s, p);
    if a.Some? {
      assert (s + [x])[a.value] == s[a.value];
      if b.Some? {
        assert (s + [x])[b.value] == s[b.value];
      }
    } else {
      assert forall j :: 0 <= j < |s| ==> (s + [x])[j] == s[j];
    }
  }

  /** FirstIndex is determined by its contract: any index meeting it is the answer. */
  lemma FirstIndexIs<T>(s: seq<T>, p: T -> bool, j: nat)
    requires j < |s| && p(s[j]) && forall k :: 0 <= k < j ==> !p(s[k])
    ensures FirstIndex(s, p) == Some(j)
  {
  }

  /** Removing an element that fails `p` keeps the first match (shifted by one if it
      was after the removed position). */
  lemma FirstIndexRemove<T>(s: seq<T>, i: nat, p: T -> bool)
    requires i < |s| && !p(s[i])
    ensures FirstIndex(s[..i] + s[i + 1..], p).None? == FirstIndex(s, p).None?
    ensures FirstIndex(s, p).Some? ==>
      (s[..i] + s[i + 1..])[FirstIndex(s[..i] + s[i + 1..], p).value] == s[FirstIndex(s, p).value]
  {
    var r := s[..i] + s[i + 1..];
    assert forall k :: 0 <= k < |r| ==> r[k] == if k < i then s[k] else s[k + 1];
    var a := FirstIndex(s, p);
    if a.None? {
      assert forall k :: 0 <= k < |r| ==> !p(r[k]);
    } else {
      var j := a.value;
      if j < i {
        FirstIndexIs(r, p, j);
      } else {
        FirstIndexIs(r, p, j - 1);
      }
    }
  }

  /** Replacing an element by one with the same verdict under `p` keeps the first match. */
  lemma FirstIndexUpdate<T>(s: seq<T>, i: nat, y: T, p: T -> bool)
    requires i < |s| && p(y) == p(s[i])
    ensures FirstIndex(s[i := y], p) == FirstIndex(s, p)
  {
    var r := s[i := y];
    var a := FirstIndex(s, p);
    if a.None? {
      assert forall k :: 0 <= k < |r| ==> !p(r[k]);
    } else {
      FirstIndexIs(r, p, a.value);
    }
  }

  /** `slice(0, n)`: the first `n` elements, or all of them when there are fewer. */
  function Take<T>(s: seq<T>, n: nat): (r: seq<T>)
    ensures |r| == if |s| <= n then |s| else n
    ensures |s| <= n ==> r == s
    ensures r <= s
  {
    if |s| <= n then s else s[..n]
  }

  /** `Array.prototype.map`. */
  function Map<T, U>(s: seq<T>, f: T -> U): (r: seq<U>)
    ensures |r| == |s|
    ensures forall i :: 0 <= i < |s| ==> r[i] == f(s[i])
  {
    seq(|s|, i requires 0 <= i < |s| => f(s[i]))
  }
}
