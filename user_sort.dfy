/**
 * Sorting users by one key, as both services do with `Array.prototype.sort`
 * and a three-way comparator. The sort is specified by a stable insertion sort
 * on sequences (SortByKey); its properties (ascending, a permutation, equal
 * keys keep their order, and uniqueness of any such result) are lemmas, and
 * SortInPlace performs it on an array.
 */
module UserSort {
  import JsRuntime
  import opened GoRest

  /** The comparator would return -1: u sorts strictly before v on key k. */
  predicate Precedes(u: User, v: User, k: UserKey) {
    KeyLess(KeyOf(u, k), KeyOf(v, k))
  }

  /** The comparator handed to `sort`: -1, 1 or 0. */
  function Compare(u1: User, u2: User, k: UserKey): (r: int)
    ensures r == -1 <==> Precedes(u1, u2, k)
    ensures r == 1 <==> !Precedes(u1, u2, k) && Precedes(u2, u1, k)
    ensures r == 0 <==> !Precedes(u1, u2, k) && !Precedes(u2, u1, k)
  {
    if KeyLess(KeyOf(u1, k), KeyOf(u2, k)) then -1
    else if KeyLess(KeyOf(u2, k), KeyOf(u1, k)) then 1
    else 0
  }

  // ---------------------------------------------------------------------------
  // The order on one key
  // ---------------------------------------------------------------------------

  lemma PrecedesIrreflexive(u: User, k: UserKey)
    ensures !Precedes(u, u, k)
  {
    if k != Id {
      JsRuntime.StringLessIrreflexive(KeyOf(u, k).s);
    }
  }

  lemma PrecedesAsymmetric(u: User, v: User, k: UserKey)
    ensures Precedes(u, v, k) ==> !Precedes(v, u, k)
  {
    if k != Id {
      JsRuntime.StringLessAsymmetric(KeyOf(u, k).s, KeyOf(v, k).s);
    }
  }

  lemma PrecedesTransitive(u: User, v: User, w: User, k: UserKey)
    ensures Precedes(u, v, k) && Precedes(v, w, k) ==> Precedes(u, w, k)
  {
    if k != Id {
      JsRuntime.StringLessTransitive(KeyOf(u, k).s, KeyOf(v, k).s, KeyOf(w, k).s);
    }
  }

  /** Neither precedes the other exactly when the keys are equal. */
  lemma PrecedesTotal(u: User, v: User, k: UserKey)
    ensures !Precedes(u, v, k) && !Precedes(v, u, k) <==> KeyOf(u, k) == KeyOf(v, k)
  {
    PrecedesIrreflexive(u, k);
    if k != Id {
      JsRuntime.StringLessTotal(KeyOf(u, k).s, KeyOf(v, k).s);
    }
  }

  /** "Not after" is transitive: u <= v and v <= w give u <= w. */
  lemma NotAfterTransitive(u: User, v: User, w: User, k: UserKey)
    requires !Precedes(v, u, k) && !Precedes(w, v, k)
    ensures !Precedes(w, u, k)
  {
    PrecedesTotal(u, v, k);
    PrecedesTransitive(w, u, v, k);
  }

  /**
   * The comparator is consistent in the sense of section 23.1.3.30.1 of
   * ECMA-262 (2023 edition): its sign flips with its arguments, 0 means equal
   * keys, and "before" is transitive.
   */
  lemma CompareConsistent(a: User, b: User, c: User, k: UserKey)
    ensures Compare(a, b, k) == -Compare(b, a, k)
    ensures Compare(a, b, k) == 0 <==> KeyOf(a, k) == KeyOf(b, k)
    ensures Compare(a, b, k) < 0 && Compare(b, c, k) < 0 ==> Compare(a, c, k) < 0
  {
    PrecedesAsymmetric(a, b, k);
    PrecedesTotal(a, b, k);
    PrecedesTransitive(a, b, c, k);
  }

  // ---------------------------------------------------------------------------
  // Specification of the sort
  // ---------------------------------------------------------------------------

  /** Ascending on key k: no element is preceded by a later one. */
  ghost predicate Sorted(s: seq<User>, k: UserKey) {
    forall i, j {:trigger Precedes(s[j], s[i], k)} :: 0 <= i < j < |s| ==> !Precedes(s[j], s[i], k)
  }

  /** The elements of s whose key k equals v, in their order in s. */
  function WithKey(s: seq<User>, v: KeyValue, k: UserKey): seq<User> {
    if s == [] then []
    else WithKey(s[..|s| - 1], v, k) + (if KeyOf(s[|s| - 1], k) == v then [s[|s| - 1]] else [])
  }

  /** Equal keys keep their relative order: every key class reads the same. */
  ghost predicate SameKeyOrder(t: seq<User>, s: seq<User>, k: UserKey) {
    forall v :: WithKey(t, v, k) == WithKey(s, v, k)
  }

  /** Puts x after every element of the sorted s that it does not precede. */
  function Insert(s: seq<User>, x: User, k: UserKey): seq<User> {
    if s == [] || !Precedes(x, s[|s| - 1], k) then s + [x]
    else Insert(s[..|s| - 1], x, k) + [s[|s| - 1]]
  }

  /** Stable insertion sort on key k. */
  function SortByKey(s: seq<User>, k: UserKey): seq<User> {
    if s == [] then [] else Insert(SortByKey(s[..|s| - 1], k), s[|s| - 1], k)
  }

  lemma {:induction false} WithKeyMembers(s: seq<User>, v: KeyValue, k: UserKey, x: User)
    ensures x in WithKey(s, v, k) <==> x in s && KeyOf(x, k) == v
  {
    if s != [] {
      WithKeyMembers(s[..|s| - 1], v, k, x);
      assert s == s[..|s| - 1] + [s[|s| - 1]];
    }
  }

  lemma {:induction false} InsertPermutes(s: seq<User>, x: User, k: UserKey)
    ensures multiset(Insert(s, x, k)) == multiset(s) + multiset{x}
  {
    if s != [] && Precedes(x, s[|s| - 1], k) {
      InsertPermutes(s[..|s| - 1], x, k);
      assert s == s[..|s| - 1] + [s[|s| - 1]];
    }
  }

  lemma {:induction false} InsertSorted(s: seq<User>, x: User, k: UserKey)
    requires Sorted(s, k)
    ensures Sorted(Insert(s, x, k), k)
  {
    if s == [] {
    } else if !Precedes(x, s[|s| - 1], k) {
      forall i | 0 <= i < |s|
        ensures !Precedes(x, s[i], k)
      {
        if i < |s| - 1 {
          NotAfterTransitive(s[i], s[|s| - 1], x, k);
        }
      }
    } else {
      var init, last := s[..|s| - 1], s[|s| - 1];
      InsertSorted(init, x, k);
      InsertPermutes(init, x, k);
      var t := Insert(init, x, k);
      forall i | 0 <= i < |t|
        ensures !Precedes(last, t[i], k)
      {
        assert t[i] in multiset(t);
        if t[i] == x {
          PrecedesAsymmetric(x, last, k);
        } else {
          assert t[i] in init;
        }
      }
    }
  }

  /** Appending one element extends each key class by at most that element. */
  lemma WithKeyAppend(s: seq<User>, x: User, v: KeyValue, k: UserKey)
    ensures WithKey(s + [x], v, k) == WithKey(s, v, k) + (if KeyOf(x, k) == v then [x] else [])
  {
    assert (s + [x])[..|s|] == s;
  }

  lemma {:induction false} InsertWithKey(s: seq<User>, x: User, k: UserKey, v: KeyValue)
    ensures WithKey(Insert(s, x, k), v, k)
         == WithKey(s, v, k) + (if KeyOf(x, k) == v then [x] else [])
  {
    if s == [] || !Precedes(x, s[|s| - 1], k) {
      WithKeyAppend(s, x, v, k);
    } else {
      InsertWithKey(s[..|s| - 1], x, k, v);
      InsertWithKeyShifted(s, x, k, v);
    }
  }

  /** The step of InsertWithKey where x moves before the last element. */
  lemma InsertWithKeyShifted(s: seq<User>, x: User, k: UserKey, v: KeyValue)
    requires s != [] && Precedes(x, s[|s| - 1], k)
    requires WithKey(Insert(s[..|s| - 1], x, k), v, k)
          == WithKey(s[..|s| - 1], v, k) + (if KeyOf(x, k) == v then [x] else [])
    ensures WithKey(Insert(s, x, k), v, k)
         == WithKey(s, v, k) + (if KeyOf(x, k) == v then [x] else [])
  {
    var init, last := s[..|s| - 1], s[|s| - 1];
    var t := Insert(init, x, k);
    assert Insert(s, x, k) == t + [last];
    WithKeyAppend(t, last, v, k);
    assert s == init + [last];
    WithKeyAppend(init, last, v, k);
    PrecedesIrreflexive(x, k);
    if KeyOf(x, k) == v {
      assert KeyOf(last, k) != v;
      assert WithKey(t + [last], v, k) == WithKey(t, v, k);
      assert WithKey(s, v, k) == WithKey(init, v, k);
    } else {
      assert WithKey(t, v, k) == WithKey(init, v, k);
    }
  }

  /** The result is in ascending order. */
  lemma {:induction false} SortByKeySorted(s: seq<User>, k: UserKey)
    ensures Sorted(SortByKey(s, k), k)
  {
    if s != [] {
      SortByKeySorted(s[..|s| - 1], k);
      InsertSorted(SortByKey(s[..|s| - 1], k), s[|s| - 1], k);
    }
  }

  /** The result is a permutation of the input. */
  lemma {:induction false} SortByKeyPermutes(s: seq<User>, k: UserKey)
    ensures multiset(SortByKey(s, k)) == multiset(s)
  {
    if s != [] {
      SortByKeyPermutes(s[..|s| - 1], k);
      InsertPermutes(SortByKey(s[..|s| - 1], k), s[|s| - 1], k);
      assert s == s[..|s| - 1] + [s[|s| - 1]];
    }
  }

  /** Users with equal keys keep their relative order. */
  lemma {:induction false} SortByKeyStable(s: seq<User>, k: UserKey)
    ensures SameKeyOrder(SortByKey(s, k), s, k)
  {
    forall v
      ensures WithKey(SortByKey(s, k), v, k) == WithKey(s, v, k)
    {
      SortByKeyStableAt(s, k, v);
    }
  }

  lemma {:induction false} SortByKeyStableAt(s: seq<User>, k: UserKey, v: KeyValue)
    ensures WithKey(SortByKey(s, k), v, k) == WithKey(s, v, k)
  {
    if s != [] {
      SortByKeyStableAt(s[..|s| - 1], k, v);
      InsertWithKey(SortByKey(s[..|s| - 1], k), s[|s| - 1], k, v);
    }
  }

  /** Sorting an already sorted sequence changes nothing. */
  lemma {:induction false} SortByKeyOfSorted(s: seq<User>, k: UserKey)
    requires Sorted(s, k)
    ensures SortByKey(s, k) == s
  {
    if s != [] {
      var init, last := s[..|s| - 1], s[|s| - 1];
      SortedInit(s, k);
      SortByKeyOfSorted(init, k);
      assert SortByKey(s, k) == Insert(init, last, k);
      if init != [] {
        assert init[|init| - 1] == s[|s| - 2];
        assert !Precedes(last, init[|init| - 1], k);
      }
      assert s == init + [last];
    }
  }

  /** Dropping the last element keeps a sequence sorted. */
  lemma SortedInit(s: seq<User>, k: UserKey)
    requires s != [] && Sorted(s, k)
    ensures Sorted(s[..|s| - 1], k)
  {
    var init := s[..|s| - 1];
    forall i, j | 0 <= i < j < |init|
      ensures !Precedes(init[j], init[i], k)
    {
      assert init[j] == s[j] && init[i] == s[i];
    }
  }

  /** Sorting twice by the same key is sorting once. */
  lemma SortByKeyIdempotent(s: seq<User>, k: UserKey)
    ensures SortByKey(SortByKey(s, k), k) == SortByKey(s, k)
  {
    SortByKeySorted(s, k);
    SortByKeyOfSorted(SortByKey(s, k), k);
  }

  /** Users with ids 3, 1, 2 sort by id to 1, 2, 3. */
  lemma SortByIdExample(a: User, b: User, c: User)
    requires a.id == 3 && b.id == 1 && c.id == 2
    ensures SortByKey([a, b, c], Id) == [b, c, a]
  {
    assert [a, b, c][..2] == [a, b] && [a, b][..1] == [a];
    assert SortByKey([a], Id) == [a];
    assert SortByKey([a, b], Id) == Insert([a], b, Id) == [b, a];
    assert [b, a][..1] == [b];
    assert Insert([b, a], c, Id) == Insert([b], c, Id) + [a] == [b, c, a];
  }

  /**
   * A sorted sequence is determined by the order of each of its key classes.
   * So every stable sort of s (whatever its algorithm) yields SortByKey(s, k).
   */
  lemma {:induction false} StableSortUnique(t: seq<User>, u: seq<User>, k: UserKey)
    requires Sorted(t, k) && Sorted(u, k)
    requires SameKeyOrder(t, u, k)
    ensures t == u
    decreases |t|
  {
    if t == [] || u == [] {
      if t != [] {
        EmptyClass(u, t, KeyOf(t[0], k), k);
      } else if u != [] {
        EmptyClass(t, u, KeyOf(u[0], k), k);
      }
    } else {
      var m := t[|t| - 1];
      SortedLastsEqual(t, u, k);
      var t', u' := t[..|t| - 1], u[..|u| - 1];
      assert t == t' + [m] && u == u' + [m];
      forall v
        ensures WithKey(t', v, k) == WithKey(u', v, k)
      {
        assert WithKey(t, v, k) == WithKey(u, v, k);
        WithKeyAppend(t', m, v, k);
        WithKeyAppend(u', m, v, k);
        AppendCancel(WithKey(t', v, k), WithKey(u', v, k), if KeyOf(m, k) == v then [m] else []);
      }
      StableSortUnique(t', u', k);
    }
  }

  /** Two sorted sequences with the same key classes end in the same element. */
  lemma SortedLastsEqual(t: seq<User>, u: seq<User>, k: UserKey)
    requires t != [] && u != []
    requires Sorted(t, k) && Sorted(u, k)
    requires SameKeyOrder(t, u, k)
    ensures t[|t| - 1] == u[|u| - 1]
  {
    var m, n := t[|t| - 1], u[|u| - 1];
    LastNotBefore(t, u, k);
    LastNotBefore(u, t, k);
    PrecedesTotal(m, n, k);
    LastOfClass(t, u, KeyOf(m, k), k);
  }

  /** Two sequences ending in the same key class, with that class equal, end alike. */
  lemma LastOfClass(t: seq<User>, u: seq<User>, v: KeyValue, k: UserKey)
    requires t != [] && u != []
    requires KeyOf(t[|t| - 1], k) == v && KeyOf(u[|u| - 1], k) == v
    requires WithKey(t, v, k) == WithKey(u, v, k)
    ensures t[|t| - 1] == u[|u| - 1]
  {
    var c := WithKey(t, v, k);
    assert c == WithKey(t[..|t| - 1], v, k) + [t[|t| - 1]];
    assert c == WithKey(u[..|u| - 1], v, k) + [u[|u| - 1]];
    assert c[|c| - 1] == t[|t| - 1] && c[|c| - 1] == u[|u| - 1];
  }

  /** The last element of u occurs in t, where the last element of t is not before it. */
  lemma LastNotBefore(t: seq<User>, u: seq<User>, k: UserKey)
    requires t != [] && u != []
    requires Sorted(t, k)
    requires SameKeyOrder(t, u, k)
    ensures !Precedes(t[|t| - 1], u[|u| - 1], k)
  {
    var m, n := t[|t| - 1], u[|u| - 1];
    var v := KeyOf(n, k);
    assert WithKey(t, v, k) == WithKey(u, v, k);
    WithKeyMembers(u, v, k, n);
    WithKeyMembers(t, v, k, n);
    var i :| 0 <= i < |t| && t[i] == n;
    if i == |t| - 1 {
      PrecedesIrreflexive(m, k);
    }
  }

  lemma AppendCancel(a: seq<User>, b: seq<User>, c: seq<User>)
    requires a + c == b + c
    ensures a == b
  {
    assert a == (a + c)[..|a|] && b == (b + c)[..|b|];
  }

  /** A key present in s has a non-empty class, so s cannot match an empty sequence. */
  lemma EmptyClass(e: seq<User>, s: seq<User>, v: KeyValue, k: UserKey)
    requires e == [] && s != [] && v == KeyOf(s[0], k)
    ensures WithKey(e, v, k) != WithKey(s, v, k)
  {
    WithKeyMembers(s, v, k, s[0]);
  }

  // ---------------------------------------------------------------------------
  // The in-place sort
  // ---------------------------------------------------------------------------

  /** Insert(p, x) places x at the first position after which nothing exceeds it. */
  lemma {:induction false} InsertAt(p: seq<User>, x: User, j: nat, k: UserKey)
    requires j <= |p|
    requires j == 0 || !Precedes(x, p[j - 1], k)
    requires forall m :: j <= m < |p| ==> Precedes(x, p[m], k)
    ensures Insert(p, x, k) == p[..j] + [x] + p[j..]
    decreases |p|
  {
    if j < |p| {
      var init, last := p[..|p| - 1], p[|p| - 1];
      assert Precedes(x, last, k);
      assert Insert(p, x, k) == Insert(init, x, k) + [last];
      InsertAt(init, x, j, k);
      assert init[..j] == p[..j];
      assert init[j..] + [last] == p[j..];
    } else {
      assert p[..j] == p && p[j..] == [];
    }
  }

  /**
   * One step of the sort: moves a[i] left past every element of the sorted
   * prefix a[..i] that it precedes. The elements after a[i] stay in place.
   */
  method InsertInPlace(a: array<User>, i: nat, k: UserKey)
    requires i < a.Length
    modifies a
    ensures a[..] == Insert(old(a[..i]), old(a[i]), k) + old(a[i + 1..])
  {
    ghost var o := a[..];
    ghost var p := a[..i];
    var x := a[i];
    var j := i;
    while j > 0 && Precedes(x, a[j - 1], k)
      invariant 0 <= j <= i
      invariant forall m :: 0 <= m < j ==> a[m] == p[m]
      invariant forall m :: j < m <= i ==> a[m] == p[m - 1]
      invariant forall m :: i < m < a.Length ==> a[m] == o[m]
      invariant forall m :: j <= m < i ==> Precedes(x, p[m], k)
    {
      a[j] := a[j - 1];
      j := j - 1;
    }
    a[j] := x;
    ShiftedIsInsert(a[..], o, p, x, i, j, k);
  }

  /** The array after the shifting loop, read as a sequence, is Insert(p, x) followed by the untouched rest. */
  lemma ShiftedIsInsert(s: seq<User>, o: seq<User>, p: seq<User>, x: User, i: nat, j: nat, k: UserKey)
    requires |s| == |o| && j <= i < |o| && p == o[..i] && x == o[i]
    requires forall m :: 0 <= m < j ==> s[m] == p[m]
    requires s[j] == x
    requires forall m :: j < m <= i ==> s[m] == p[m - 1]
    requires forall m :: i < m < |s| ==> s[m] == o[m]
    requires j == 0 || !Precedes(x, p[j - 1], k)
    requires forall m :: j <= m < i ==> Precedes(x, p[m], k)
    ensures s == Insert(p, x, k) + o[i + 1..]
  {
    ShiftedPrefix(s[..i + 1], p, x, j, k);
    assert s[i + 1..] == o[i + 1..];
    assert s == s[..i + 1] + s[i + 1..];
  }

  /** The shifted prefix is Insert(p, x). */
  lemma ShiftedPrefix(t: seq<User>, p: seq<User>, x: User, j: nat, k: UserKey)
    requires |t| == |p| + 1 && j <= |p|
    requires forall m :: 0 <= m < j ==> t[m] == p[m]
    requires t[j] == x
    requires forall m :: j < m < |t| ==> t[m] == p[m - 1]
    requires j == 0 || !Precedes(x, p[j - 1], k)
    requires forall m :: j <= m < |p| ==> Precedes(x, p[m], k)
    ensures t == Insert(p, x, k)
  {
    InsertAt(p, x, j, k);
    assert t == p[..j] + [x] + p[j..];
  }

  /** Sorting one more element inserts it into the sorted prefix. */
  lemma SortStep(input: seq<User>, i: nat, k: UserKey)
    requires i < |input|
    ensures SortByKey(input[..i + 1], k) == Insert(SortByKey(input[..i], k), input[i], k)
  {
    var t := input[..i + 1];
    assert t[..|t| - 1] == input[..i] && t[|t| - 1] == input[i];
  }

  /** Sorting keeps the length. */
  lemma SortByKeyLength(s: seq<User>, k: UserKey)
    ensures |SortByKey(s, k)| == |s|
  {
    SortByKeyPermutes(s, k);
    assert |multiset(SortByKey(s, k))| == |multiset(s)|;
  }

  /** The array during the sort: the sorted prefix, then the untouched input. */
  lemma SplitSorted(s: seq<User>, sorted: seq<User>, input: seq<User>, i: nat)
    requires i < |input| && |sorted| == i && s == sorted + input[i..]
    ensures s[..i] == sorted && s[i] == input[i] && s[i + 1..] == input[i + 1..]
  {
    assert s[i..] == input[i..];
    assert s[i + 1..] == input[i..][1..];
  }

  /** Sorts a in place by key k, exactly as SortByKey does. */
  method SortInPlace(a: array<User>, k: UserKey)
    modifies a
    ensures a[..] == SortByKey(old(a[..]), k)
  {
    ghost var input := a[..];
    var i := 0;
    while i < a.Length
      invariant 0 <= i <= a.Length
      invariant a[..] == SortByKey(input[..i], k) + input[i..]
    {
      SortStep(input, i, k);
      SortByKeyLength(input[..i], k);
      SplitSorted(a[..], SortByKey(input[..i], k), input, i);
      InsertInPlace(a, i, k);
      i := i + 1;
    }
    assert input[..a.Length] == input && input[a.Length..] == [];
  }
}
