/**
 * The in-place, stable `Array.prototype.sort` that the script calls with a
 * numeric comparator `(a, b) => key(a) - key(b)`: in `median` on the ages and
 * in `calculateSkillStrength` on the per-skill entries.
 */
module Sorting {

  /** Non-decreasing by `key`. */
  ghost predicate SortedBy<T>(s: seq<T>, key: T -> real)
  {
    forall i, j :: 0 <= i < j < |s| ==> key(s[i]) <= key(s[j])
  }

  /** The elements of `s` whose key is `c`, in their order in `s`. */
  function FilterKey<T>(s: seq<T>, key: T -> real, c: real): seq<T>
  {
    if s == [] then []
    else (if key(s[0]) == c then [s[0]] else []) + FilterKey(s[1..], key, c)
  }

  /**
   * `t` keeps every run of equal keys of `s` in its original order: the
   * definition of a stable sort.
   */
  ghost predicate SameTies<T>(s: seq<T>, t: seq<T>, key: T -> real)
  {
    forall c :: FilterKey(t, key, c) == FilterKey(s, key, c)
  }

  lemma {:induction false} FilterKeyAppend<T>(a: seq<T>, b: seq<T>, key: T -> real, c: real)
    ensures FilterKey(a + b, key, c) == FilterKey(a, key, c) + FilterKey(b, key, c)
  {
    if a != [] {
      assert (a + b)[1..] == a[1..] + b;
      FilterKeyAppend(a[1..], b, key, c);
    } else {
      assert a + b == b;
    }
  }

  lemma {:induction false} FilterKeyNone<T>(s: seq<T>, key: T -> real, c: real)
    requires forall k :: 0 <= k < |s| ==> key(s[k]) != c
    ensures FilterKey(s, key, c) == []
  {
    if s != [] {
      FilterKeyNone(s[1..], key, c);
    }
  }

  /**
   * Placing `x` after the prefix `p[..j]` whose keys are at most `key(x)`
   * and before the rest `p[j..]` whose keys exceed it keeps a sorted
   * sequence sorted.
   */
  lemma InsertKeepsSorted<T>(p: seq<T>, j: nat, x: T, key: T -> real)
    requires SortedBy(p, key) && j <= |p|
    requires j > 0 ==> key(p[j - 1]) <= key(x)
    requires forall k :: j <= k < |p| ==> key(x) < key(p[k])
    ensures SortedBy(p[..j] + [x] + p[j..], key)
  {
    var q := p[..j] + [x] + p[j..];
    forall a, b | 0 <= a < b < |q| ensures key(q[a]) <= key(q[b]) {
      if b < j {
        assert q[a] == p[a] && q[b] == p[b];
      } else if b == j {
        assert q[a] == p[a] && key(p[a]) <= key(p[j - 1]);
      } else if a < j {
        assert q[a] == p[a] && q[b] == p[b - 1];
        assert key(p[a]) <= key(p[j - 1]) || a == j - 1;
      } else if a == j {
        assert q[b] == p[b - 1];
      } else {
        assert q[a] == p[a - 1] && q[b] == p[b - 1];
      }
    }
  }

  /**
   * Inserting `x` in front of the elements whose keys strictly exceed its
   * own leaves every tie class as if `x` had been appended: `x` lands after
   * every earlier element with its key.
   */
  lemma InsertKeepsTies<T>(p: seq<T>, j: nat, x: T, key: T -> real)
    requires j <= |p|
    requires forall k :: j <= k < |p| ==> key(x) < key(p[k])
    ensures SameTies(p + [x], p[..j] + [x] + p[j..], key)
  {
    forall c ensures FilterKey(p[..j] + [x] + p[j..], key, c) == FilterKey(p + [x], key, c) {
      assert p == p[..j] + p[j..];
      FilterKeyAppend(p[..j] + [x], p[j..], key, c);
      FilterKeyAppend(p[..j], [x], key, c);
      FilterKeyAppend(p[..j], p[j..], key, c);
      FilterKeyAppend(p, [x], key, c);
      if c == key(x) {
        FilterKeyNone(p[j..], key, c);
      } else {
        assert FilterKey([x], key, c) == [];
      }
    }
  }

  lemma InsertPermutes<T>(p: seq<T>, j: nat, x: T)
    requires j <= |p|
    ensures multiset(p[..j] + [x] + p[j..]) == multiset(p + [x])
  {
    assert p == p[..j] + p[j..];
  }

  /** What one insertion step establishes, on values. */
  lemma InsertStep<T>(p: seq<T>, j: nat, x: T, key: T -> real)
    requires SortedBy(p, key) && j <= |p|
    requires j > 0 ==> key(p[j - 1]) <= key(x)
    requires forall k :: j <= k < |p| ==> key(x) < key(p[k])
    ensures SortedBy(p[..j] + [x] + p[j..], key)
    ensures multiset(p[..j] + [x] + p[j..]) == multiset(p + [x])
    ensures SameTies(p + [x], p[..j] + [x] + p[j..], key)
  {
    InsertKeepsSorted(p, j, x, key);
    InsertKeepsTies(p, j, x, key);
    InsertPermutes(p, j, x);
  }

  lemma SameTiesAppend<T>(s: seq<T>, t: seq<T>, x: T, key: T -> real)
    requires SameTies(s, t, key)
    ensures SameTies(s + [x], t + [x], key)
  {
    forall c ensures FilterKey(t + [x], key, c) == FilterKey(s + [x], key, c) {
      FilterKeyAppend(s, [x], key, c);
      FilterKeyAppend(t, [x], key, c);
    }
  }

  /** Ties kept up to `done`, and by the step from `done + [x]` to `after`, are kept up to `after`. */
  lemma TiesStep<T>(prefix: seq<T>, done: seq<T>, x: T, after: seq<T>, key: T -> real)
    requires SameTies(prefix, done, key)
    requires SameTies(done + [x], after, key)
    ensures SameTies(prefix + [x], after, key)
  {
    SameTiesAppend(prefix, done, x, key);
  }

  /**
   * The inner loop of one insertion step: shifts the elements of `a[..i]`
   * whose key strictly exceeds `key(x)` one place right, and returns the
   * hole `j` they leave, where `x` belongs.
   */
  method ShiftGreater<T>(a: array<T>, i: nat, x: T, key: T -> real) returns (j: nat)
    requires i < a.Length
    requires SortedBy(a[..i], key)
    modifies a
    ensures j <= i
    ensures j > 0 ==> key(a[j - 1]) <= key(x)
    ensures forall k :: 0 <= k < j ==> a[k] == old(a[k])
    ensures forall k :: j < k <= i ==> a[k] == old(a[k - 1])
    ensures forall k :: i < k < a.Length ==> a[k] == old(a[k])
    ensures forall k :: j <= k < i ==> key(x) < key(old(a[k]))
  {
    j := i;
    while j > 0 && key(a[j - 1]) > key(x)
      invariant 0 <= j <= i
      invariant forall k :: 0 <= k < j ==> a[k] == old(a[k])
      invariant forall k :: j < k <= i ==> a[k] == old(a[k - 1])
      invariant forall k :: i < k < a.Length ==> a[k] == old(a[k])
      invariant forall k :: j <= k < i ==> key(x) < key(old(a[k]))
    {
      a[j] := a[j - 1];
      j := j - 1;
    }
  }

  /**
   * What one insertion step does to the whole array `s`, which becomes `t`:
   * `t[..i + 1]` is `s[i]` placed into the sorted `s[..i]`, and the rest is
   * untouched.
   */
  lemma Placed<T>(s: seq<T>, t: seq<T>, i: nat, j: nat, key: T -> real)
    requires |s| == |t| && j <= i < |s|
    requires SortedBy(s[..i], key)
    requires j > 0 ==> key(s[j - 1]) <= key(s[i])
    requires forall k :: j <= k < i ==> key(s[i]) < key(s[k])
    requires forall k :: 0 <= k < j ==> t[k] == s[k]
    requires t[j] == s[i]
    requires forall k :: j < k <= i ==> t[k] == s[k - 1]
    requires forall k :: i < k < |t| ==> t[k] == s[k]
    ensures SortedBy(t[..i + 1], key)
    ensures multiset(t[..i + 1]) == multiset(s[..i + 1])
    ensures SameTies(s[..i + 1], t[..i + 1], key)
    ensures t[i + 1..] == s[i + 1..]
  {
    var p := s[..i];
    var x := s[i];
    var q := p[..j] + [x] + p[j..];
    forall k | 0 <= k <= i ensures t[k] == q[k] {
      if k > j {
        assert q[k] == p[k - 1];
      }
    }
    assert t[..i + 1] == q;
    assert s[..i + 1] == p + [x];
    InsertStep(p, j, x, key);
  }

  /**
   * One step of the insertion sort: `a[..i]` is sorted, and `a[i]` is moved
   * left past every element whose key strictly exceeds its own.
   */
  method InsertNext<T>(a: array<T>, i: nat, key: T -> real)
    requires i < a.Length
    requires SortedBy(a[..i], key)
    modifies a
    ensures SortedBy(a[..i + 1], key)
    ensures multiset(a[..i + 1]) == multiset(old(a[..i + 1]))
    ensures SameTies(old(a[..i + 1]), a[..i + 1], key)
    ensures a[i + 1..] == old(a[i + 1..])
  {
    ghost var s := a[..];
    var x := a[i];
    var j := ShiftGreater(a, i, x, key);
    a[j] := x;
    Placed(s, a[..], i, j, key);
    assert a[..][..i + 1] == a[..i + 1] && a[..][i + 1..] == a[i + 1..];
  }

  /**
   * Stable insertion sort of `a` by `key`, in place: the result is sorted,
   * a permutation of the input, and keeps equal keys in input order.
   */
  method SortBy<T>(a: array<T>, key: T -> real)
    modifies a
    ensures SortedBy(a[..], key)
    ensures multiset(a[..]) == multiset(old(a[..]))
    ensures SameTies(old(a[..]), a[..], key)
  {
    ghost var input := a[..];
    var i := 0;
    while i < a.Length
      invariant 0 <= i <= a.Length
      invariant SortedBy(a[..i], key)
      invariant a[i..] == input[i..]
      invariant multiset(a[..i]) == multiset(input[..i])
      invariant SameTies(input[..i], a[..i], key)
    {
      ghost var done := a[..i];
      ghost var x := a[i];
      assert x == input[i];
      assert a[..i + 1] == done + [x];
      InsertNext(a, i, key);
      assert input[..i + 1] == input[..i] + [x];
      TiesStep(input[..i], done, x, a[..i + 1], key);
      i := i + 1;
    }
    assert a[..] == a[..a.Length];
    assert input == input[..a.Length];
  }
}
