/** Python's `sorted(xs, key=...)` and `xs.sort(key=...)`: a stable sort.
    The order is given as a relation `le(a, b)` ("a's key is at most b's"),
    which Python's key comparison makes a total preorder. The sort is
    written as an insertion sort; what the rest of the model relies on is
    proved about it: the result is ordered, it is a permutation of the
    input, and elements with equal keys keep their input order. */
module Sorting {

  /** `le` is total and transitive, as `<=` on the keys is. */
  ghost predicate TotalPreorder<T(!new)>(le: (T, T) -> bool) {
    && (forall a, b :: le(a, b) || le(b, a))
    && (forall a, b, c :: le(a, b) && le(b, c) ==> le(a, c))
  }

  predicate Sorted<T>(s: seq<T>, le: (T, T) -> bool) {
    forall i, j :: 0 <= i < j < |s| ==> le(s[i], s[j])
  }

  /** `x` placed after every element of the sorted `t` that is not above it. */
  function Insert<T>(t: seq<T>, x: T, le: (T, T) -> bool): (r: seq<T>)
    ensures |r| == |t| + 1
    ensures multiset(r) == multiset(t) + multiset{x}
  {
    if t == [] || !le(t[0], x) then [x] + t
    else
      assert t == [t[0]] + t[1..];
      [t[0]] + Insert(t[1..], x, le)
  }

  /** The stable sort of `s` by `le`. */
  function SortBy<T>(s: seq<T>, le: (T, T) -> bool): (r: seq<T>)
    ensures |r| == |s|
    ensures multiset(r) == multiset(s)
  {
    if s == [] then []
    else
      assert s == s[..|s| - 1] + [s[|s| - 1]];
      Insert(SortBy(s[..|s| - 1], le), s[|s| - 1], le)
  }

  lemma {:induction false} InsertSorted<T(!new)>(t: seq<T>, x: T, le: (T, T) -> bool)
    requires TotalPreorder(le) && Sorted(t, le)
    ensures Sorted(Insert(t, x, le), le)
  {
    if t != [] && le(t[0], x) {
      InsertSorted(t[1..], x, le);
      var r := Insert(t[1..], x, le);
      assert multiset(r) == multiset(t[1..]) + multiset{x};
      forall k | 0 <= k < |r|
        ensures le(t[0], r[k])
      {
        assert r[k] in multiset(r);
        if r[k] != x {
          assert r[k] in multiset(t[1..]);
          var m :| 0 <= m < |t[1..]| && t[1..][m] == r[k];
          assert t[m + 1] == r[k];
        }
      }
    }
  }

  /** The result of `SortBy` is ordered by `le`. */
  lemma {:induction false} SortBySorted<T(!new)>(s: seq<T>, le: (T, T) -> bool)
    requires TotalPreorder(le)
    ensures Sorted(SortBy(s, le), le)
  {
    if s != [] {
      SortBySorted(s[..|s| - 1], le);
      InsertSorted(SortBy(s[..|s| - 1], le), s[|s| - 1], le);
    }
  }

  // ---------------------------------------------------------------------------
  // Stability
  // ---------------------------------------------------------------------------

  /** The elements of `s` that satisfy `p`, in order. */
  function Filter<T>(s: seq<T>, p: T -> bool): (r: seq<T>)
    ensures |r| <= |s|
    ensures forall k :: 0 <= k < |r| ==> p(r[k])
  {
    if s == [] then [] else (if p(s[0]) then [s[0]] else []) + Filter(s[1..], p)
  }

  /** The elements whose key equals the key of `a`. */
  function SameKey<T>(le: (T, T) -> bool, a: T): T -> bool {
    x => le(a, x) && le(x, a)
  }

  lemma {:induction false} FilterAppend<T>(s: seq<T>, t: seq<T>, p: T -> bool)
    ensures Filter(s + t, p) == Filter(s, p) + Filter(t, p)
  {
    if s == [] {
      assert s + t == t;
    } else {
      assert (s + t)[1..] == s[1..] + t;
      FilterAppend(s[1..], t, p);
    }
  }

  /** Filtering a list that grows by one element. */
  lemma FilterSnoc<T>(s: seq<T>, x: T, p: T -> bool)
    ensures Filter(s + [x], p) == Filter(s, p) + (if p(x) then [x] else [])
  {
    FilterAppend(s, [x], p);
    assert [x][1..] == [];
  }

  /** No element of `t` satisfies `p`. */
  lemma {:induction false} FilterNone<T>(t: seq<T>, p: T -> bool)
    requires forall k :: 0 <= k < |t| ==> !p(t[k])
    ensures Filter(t, p) == []
  {
    if t != [] {
      FilterNone(t[1..], p);
    }
  }

  /** Inserting `x` into a sorted list adds it to its key class last. */
  lemma {:induction false} InsertFilter<T(!new)>(t: seq<T>, x: T, le: (T, T) -> bool, a: T)
    requires TotalPreorder(le) && Sorted(t, le)
    ensures var p := SameKey(le, a);
            Filter(Insert(t, x, le), p) == Filter(t, p) + (if p(x) then [x] else [])
  {
    var p := SameKey(le, a);
    if t == [] {
      assert ([x] + t)[1..] == t;
    } else if !le(t[0], x) {
      assert ([x] + t)[1..] == t;
      if p(x) {
        AboveKeyClass(t, x, le, a);
        FilterNone(t, p);
      }
    } else {
      InsertFilter(t[1..], x, le, a);
      assert ([t[0]] + Insert(t[1..], x, le))[1..] == Insert(t[1..], x, le);
    }
  }

  /** When the first element of the sorted `t` is above `x`, no element of
      `t` has `x`'s key. */
  lemma AboveKeyClass<T(!new)>(t: seq<T>, x: T, le: (T, T) -> bool, a: T)
    requires TotalPreorder(le) && Sorted(t, le)
    requires t != [] && !le(t[0], x) && SameKey(le, a)(x)
    ensures forall k :: 0 <= k < |t| ==> !SameKey(le, a)(t[k])
  {
    forall k | 0 <= k < |t|
      ensures !SameKey(le, a)(t[k])
    {
      if k > 0 {
        assert le(t[0], t[k]);
      }
    }
  }

  /** Elements with the same key keep their relative input order. */
  lemma {:induction false} SortByStable<T(!new)>(s: seq<T>, le: (T, T) -> bool, a: T)
    requires TotalPreorder(le)
    ensures Filter(SortBy(s, le), SameKey(le, a)) == Filter(s, SameKey(le, a))
  {
    var p := SameKey(le, a);
    if s != [] {
      var init := s[..|s| - 1];
      var x := s[|s| - 1];
      SortByStable(init, le, a);
      SortBySorted(init, le);
      InsertFilter(SortBy(init, le), x, le, a);
      assert s == init + [x];
      FilterAppend(init, [x], p);
      assert Filter([x], p) == if p(x) then [x] else [] by {
        assert [x][1..] == [];
      }
    }
  }

  // ---------------------------------------------------------------------------
  // Positions within a filtered list
  // ---------------------------------------------------------------------------

  /** A filtered list of a sorted list is sorted. */
  lemma {:induction false} FilterSorted<T>(s: seq<T>, p: T -> bool, le: (T, T) -> bool)
    requires Sorted(s, le)
    ensures Sorted(Filter(s, p), le)
    ensures forall k :: 0 <= k < |Filter(s, p)| ==> Filter(s, p)[k] in s
  {
    if s != [] {
      FilterSorted(s[1..], p, le);
      var rest := Filter(s[1..], p);
      forall k | 0 <= k < |rest|
        ensures le(s[0], rest[k]) && rest[k] in s
      {
        assert rest[k] in s[1..];
        var m :| 0 <= m < |s[1..]| && s[1..][m] == rest[k];
        assert s[m + 1] == rest[k];
      }
    }
  }

  /** The element at `i` of `s`, when it satisfies `p`, sits in the filtered
      list at the number of earlier elements that satisfy `p`. */
  lemma {:induction false} FilterPosition<T>(s: seq<T>, p: T -> bool, i: nat)
    requires i < |s| && p(s[i])
    ensures |Filter(s[..i], p)| < |Filter(s, p)|
    ensures Filter(s, p)[|Filter(s[..i], p)|] == s[i]
  {
    assert s == s[..i] + s[i..];
    FilterAppend(s[..i], s[i..], p);
    assert s[i..] == [s[i]] + s[i + 1..];
    assert s[i..][1..] == s[i + 1..];
  }

  /** Earlier elements that satisfy `p` sit earlier in the filtered list. */
  lemma FilterPositionLess<T>(s: seq<T>, p: T -> bool, i: nat, j: nat)
    requires i < j <= |s| && p(s[i])
    ensures |Filter(s[..i], p)| < |Filter(s[..j], p)|
  {
    assert s[..j] == s[..i] + s[i..j];
    FilterAppend(s[..i], s[i..j], p);
    assert s[i..j] == [s[i]] + s[i + 1..j];
    assert s[i..j][1..] == s[i + 1..j];
  }

  /** Two elements of the sorted result that share a key come in the order of
      a `second` relation whenever the input was ordered by it. */
  lemma StableOrder<T(!new)>(s: seq<T>, le: (T, T) -> bool, second: (T, T) -> bool, i: nat, j: nat)
    requires TotalPreorder(le) && Sorted(s, second)
    requires i < j < |s|
    requires var r := SortBy(s, le); le(r[i], r[j]) && le(r[j], r[i])
    ensures var r := SortBy(s, le); second(r[i], r[j])
  {
    var r := SortBy(s, le);
    var p := SameKey(le, r[i]);
    SortByStable(s, le, r[i]);
    assert p(r[i]) && p(r[j]);
    FilterPosition(r, p, i);
    FilterPosition(r, p, j);
    FilterPositionLess(r, p, i, j);
    FilterSorted(s, p, second);
  }
}
