/**
 * The two summary statistics of the script: `average` (a `reduce` sum divided
 * by the length) and `median` (sort ascending in place, then take the middle).
 * Numbers are exact reals.
 */
module Statistics {
  import opened Wrappers
  import opened Sorting

  /** `data.reduce((a, b) => a + b)`, folding from the left. */
  function Sum(data: seq<real>): real
  {
    if data == [] then 0.0 else Sum(data[..|data| - 1]) + data[|data| - 1]
  }

  /**
   * `average(data)`: the sum divided by the length. `reduce` without an
   * initial value throws a TypeError on `[]`, which is `None` here.
   */
  function Average(data: seq<real>): (r: Option<real>)
    ensures r.Some? <==> data != []
    ensures r.Some? ==> r.value * (|data| as real) == Sum(data)
  {
    if data == [] then None else Some(Sum(data) / (|data| as real))
  }

  /** The left fold adds up over any split of the data. */
  lemma {:induction false} SumAppend(a: seq<real>, b: seq<real>)
    ensures Sum(a + b) == Sum(a) + Sum(b)
  {
    if b == [] {
      assert a + b == a;
    } else {
      var init := b[..|b| - 1];
      assert (a + b)[..|a + b| - 1] == a + init;
      SumAppend(a, init);
    }
  }

  lemma {:induction false} SumWithin(data: seq<real>, lo: real, hi: real)
    requires forall i :: 0 <= i < |data| ==> lo <= data[i] <= hi
    ensures lo * (|data| as real) <= Sum(data) <= hi * (|data| as real)
  {
    if data != [] {
      var init := data[..|data| - 1];
      SumWithin(init, lo, hi);
      assert lo * (|data| as real) == lo * (|init| as real) + lo;
      assert hi * (|data| as real) == hi * (|init| as real) + hi;
    }
  }

  /** The mean lies between any lower and upper bound of the data. */
  lemma AverageWithin(data: seq<real>, lo: real, hi: real)
    requires data != []
    requires forall i :: 0 <= i < |data| ==> lo <= data[i] <= hi
    ensures lo <= Average(data).value <= hi
  {
    SumWithin(data, lo, hi);
    var n := |data| as real;
    var r := Average(data).value;
    assert (r - lo) * n == Sum(data) - lo * n;
    assert (hi - r) * n == hi * n - Sum(data);
    NonnegFactor(r - lo, n);
    NonnegFactor(hi - r, n);
  }

  lemma NonnegFactor(x: real, n: real)
    requires n > 0.0 && x * n >= 0.0
    ensures x >= 0.0
  {
  }

  /** The key the median sorts by: the number itself (`(a, b) => a - b`). */
  function Identity(x: real): real
  {
    x
  }

  ghost predicate Ascending(s: seq<real>)
  {
    forall i, j :: 0 <= i < j < |s| ==> s[i] <= s[j]
  }

  lemma SortedByIdentity(s: seq<real>)
    requires SortedBy(s, Identity)
    ensures Ascending(s)
  {
    forall i, j | 0 <= i < j < |s| ensures s[i] <= s[j] {
      assert Identity(s[i]) <= Identity(s[j]);
    }
  }

  /** Insertion of `x` into an ascending sequence. */
  function Insert(x: real, s: seq<real>): seq<real>
  {
    if s == [] || x <= s[0] then [x] + s else [s[0]] + Insert(x, s[1..])
  }

  /** The ascending rearrangement of `s`, as a function. */
  function Sort(s: seq<real>): seq<real>
  {
    if s == [] then [] else Insert(s[0], Sort(s[1..]))
  }

  /** The first element of an ascending sequence is a lower bound of all of it. */
  lemma HeadIsLeast(s: seq<real>, x: real)
    requires Ascending(s) && x in multiset(s)
    ensures s[0] <= x
  {
    var m :| 0 <= m < |s| && s[m] == x;
  }

  lemma PrependAscending(x: real, s: seq<real>)
    requires Ascending(s)
    requires forall k :: 0 <= k < |s| ==> x <= s[k]
    ensures Ascending([x] + s)
  {
    var r := [x] + s;
    forall i, j | 0 <= i < j < |r| ensures r[i] <= r[j] {
      assert r[j] == s[j - 1];
      if i > 0 {
        assert r[i] == s[i - 1];
      }
    }
  }

  lemma {:induction false} InsertAscending(x: real, s: seq<real>)
    requires Ascending(s)
    ensures Ascending(Insert(x, s))
    ensures multiset(Insert(x, s)) == multiset(s) + multiset{x}
  {
    if s == [] || x <= s[0] {
      PrependAscending(x, s);
    } else {
      var t := Insert(x, s[1..]);
      assert s == [s[0]] + s[1..];
      InsertAscending(x, s[1..]);
      forall k | 0 <= k < |t| ensures s[0] <= t[k] {
        assert t[k] in multiset(t);
        if t[k] != x {
          assert t[k] in multiset(s);
          HeadIsLeast(s, t[k]);
        }
      }
      PrependAscending(s[0], t);
    }
  }

  lemma {:induction false} SortAscending(s: seq<real>)
    ensures Ascending(Sort(s))
    ensures multiset(Sort(s)) == multiset(s)
  {
    if s != [] {
      SortAscending(s[1..]);
      InsertAscending(s[0], Sort(s[1..]));
      assert s == [s[0]] + s[1..];
    }
  }

  lemma AscendingTail(s: seq<real>)
    requires Ascending(s) && s != []
    ensures Ascending(s[1..])
    ensures multiset(s[1..]) == multiset(s) - multiset{s[0]}
  {
    assert s == [s[0]] + s[1..];
  }

  /** Two ascending sequences with the same elements are equal. */
  lemma {:induction false} AscendingUnique(a: seq<real>, b: seq<real>)
    requires Ascending(a) && Ascending(b)
    requires multiset(a) == multiset(b)
    ensures a == b
  {
    if a == [] {
      assert |multiset(b)| == 0;
    } else {
      assert |b| == |multiset(b)| == |multiset(a)| == |a|;
      assert a[0] in multiset(a) && b[0] in multiset(b);
      HeadIsLeast(a, b[0]);
      HeadIsLeast(b, a[0]);
      assert a[0] == b[0];
      AscendingTail(a);
      AscendingTail(b);
      AscendingUnique(a[1..], b[1..]);
      assert a == [a[0]] + a[1..] && b == [b[0]] + b[1..];
    }
  }

  /**
   * Lines 256-261 on an ascending `m`: `middle = floor((n - 1) / 2)`; the
   * middle element for odd `n`, the mean of the two middle ones for even `n`.
   * On `[]` the script reads `m[-1]` and `m[0]` and yields NaN (`None`).
   */
  function MiddleOf(m: seq<real>): (r: Option<real>)
    ensures r.Some? <==> m != []
    ensures r.Some? && Ascending(m) ==> m[0] <= r.value <= m[|m| - 1]
  {
    if |m| == 0 then None
    else
      var middle := (|m| - 1) / 2;
      if |m| % 2 == 1 then Some(m[middle])
      else Some((m[middle] + m[middle + 1]) / 2.0)
  }

  /** The median of `data`: the middle of its ascending rearrangement. */
  function MedianOf(data: seq<real>): (r: Option<real>)
    ensures r.Some? <==> data != []
  {
    SortAscending(data);
    assert |Sort(data)| == |multiset(data)| == |data|;
    MiddleOf(Sort(data))
  }

  /**
   * `median(data)`: sorts `data` ascending in place and returns its middle.
   * The array afterwards holds the ascending rearrangement of its old content.
   */
  method Median(data: array<real>) returns (r: Option<real>)
    modifies data
    ensures Ascending(data[..]) && multiset(data[..]) == multiset(old(data[..]))
    ensures r == MedianOf(old(data[..]))
  {
    ghost var input := data[..];
    SortBy(data, Identity);
    SortedByIdentity(data[..]);
    r := MiddleOf(data[..]);
    SortAscending(input);
    AscendingUnique(data[..], Sort(input));
  }

  /** The median depends only on the multiset of the data, not on its order. */
  lemma MedianPermutationInvariant(s: seq<real>, t: seq<real>)
    requires multiset(s) == multiset(t)
    ensures MedianOf(s) == MedianOf(t)
  {
    SortAscending(s);
    SortAscending(t);
    AscendingUnique(Sort(s), Sort(t));
  }

  /** Non-empty data has a median, and it lies within any bounds of the data. */
  lemma MedianWithin(data: seq<real>, lo: real, hi: real)
    requires data != []
    requires forall i :: 0 <= i < |data| ==> lo <= data[i] <= hi
    ensures MedianOf(data).Some?
    ensures lo <= MedianOf(data).value <= hi
  {
    var m := Sort(data);
    SortAscending(data);
    assert |m| == |multiset(m)| == |data|;
    forall k | 0 <= k < |m| ensures lo <= m[k] <= hi {
      assert m[k] in multiset(data);
    }
  }

  /** An ascending sequence is its own ascending rearrangement. */
  lemma SortOfAscending(s: seq<real>)
    requires Ascending(s)
    ensures Sort(s) == s
  {
    SortAscending(s);
    AscendingUnique(Sort(s), s);
  }

  /** The medians the script's behaviour is pinned by, on sorted input. */
  lemma MedianOddExample()
    ensures MedianOf([1.0, 2.0, 3.0]) == Some(2.0)
  {
    SortOfAscending([1.0, 2.0, 3.0]);
  }

  lemma MedianEvenExample()
    ensures MedianOf([1.0, 2.0, 3.0, 4.0]) == Some(2.5)
  {
    SortOfAscending([1.0, 2.0, 3.0, 4.0]);
  }

  lemma MedianSingleExample()
    ensures MedianOf([5.0]) == Some(5.0)
  {
    SortOfAscending([5.0]);
  }

  /** Unsorted input is sorted first: the median of 3, 1, 2 is 2, not 1. */
  lemma MedianUnsortedExample()
    ensures MedianOf([3.0, 1.0, 2.0]) == Some(2.0)
  {
    calc {
      Sort([3.0, 1.0, 2.0]);
      Insert(3.0, Sort([1.0, 2.0]));
      { assert Sort([1.0, 2.0]) == Insert(1.0, Sort([2.0])) == Insert(1.0, [2.0]) == [1.0, 2.0]; }
      Insert(3.0, [1.0, 2.0]);
      [1.0] + Insert(3.0, [2.0]);
      [1.0, 2.0, 3.0];
    }
  }
}
