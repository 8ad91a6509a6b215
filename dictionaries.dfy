/**
 * `countBy` and `groupBy`: both fold an array into a plain object with
 * `reduce`, updating the accumulator in place. A plain object is modelled as
 * its keys in insertion order (what `Object.keys` returns for the non-numeric
 * keys the script uses) and a map from key to value.
 */
module Dictionaries {
  import opened Records

  datatype Dict<V> = Dict(keys: seq<string>, entries: map<string, V>)

  predicate NoDuplicates(s: seq<string>)
  {
    forall i, j :: 0 <= i < j < |s| ==> s[i] != s[j]
  }

  /** Each key listed once, and exactly the keys that have an entry. */
  ghost predicate WellFormed<V>(d: Dict<V>)
  {
    NoDuplicates(d.keys) && forall k :: k in d.keys <==> k in d.entries
  }

  lemma NoDuplicatesTail(s: seq<string>)
    requires NoDuplicates(s) && s != []
    ensures NoDuplicates(s[1..]) && s[0] !in s[1..]
  {
    forall i, j | 0 <= i < j < |s[1..]| ensures s[1..][i] != s[1..][j] {
      assert s[i + 1] != s[j + 1];
    }
    forall i | 1 <= i < |s| ensures s[i] != s[0] {
      assert s[0] != s[i];
    }
  }

  /** The distinct values of `s`, in order of first occurrence. */
  function Distinct(s: seq<string>): seq<string>
  {
    if s == [] then []
    else
      var init := s[..|s| - 1];
      if s[|s| - 1] in init then Distinct(init) else Distinct(init) + [s[|s| - 1]]
  }

  lemma {:induction false} DistinctSpec(s: seq<string>)
    ensures NoDuplicates(Distinct(s))
    ensures forall x :: x in Distinct(s) <==> x in s
  {
    if s != [] {
      var init := s[..|s| - 1];
      DistinctSpec(init);
      assert s == init + [s[|s| - 1]];
    }
  }

  /** `url in dict ? dict[url] : 0` (line 129): a missing key reads as 0. */
  function Lookup(d: Dict<nat>, k: string): nat
  {
    if k in d.entries then d.entries[k] else 0
  }

  /** The sum of the counts listed under `keys`. */
  function SumCounts(keys: seq<string>, d: Dict<nat>): nat
  {
    if keys == [] then 0 else Lookup(d, keys[0]) + SumCounts(keys[1..], d)
  }

  /** The sum of all counts of a count dictionary. */
  function Total(d: Dict<nat>): nat
  {
    SumCounts(d.keys, d)
  }

  lemma {:induction false} SumCountsFrame(keys: seq<string>, d: Dict<nat>, e: Dict<nat>)
    requires forall k :: k in keys ==> Lookup(d, k) == Lookup(e, k)
    ensures SumCounts(keys, d) == SumCounts(keys, e)
  {
    if keys != [] {
      SumCountsFrame(keys[1..], d, e);
    }
  }

  lemma {:induction false} SumCountsSnoc(keys: seq<string>, k: string, d: Dict<nat>)
    ensures SumCounts(keys + [k], d) == SumCounts(keys, d) + Lookup(d, k)
  {
    if keys == [] {
      assert keys + [k] == [k];
    } else {
      assert (keys + [k])[1..] == keys[1..] + [k];
      SumCountsSnoc(keys[1..], k, d);
    }
  }

  /** Adding one to the count of a listed key adds one to the sum. */
  lemma {:induction false} SumCountsBump(keys: seq<string>, k: string, d: Dict<nat>, e: Dict<nat>)
    requires NoDuplicates(keys) && k in keys
    requires Lookup(e, k) == Lookup(d, k) + 1
    requires forall x :: x != k ==> Lookup(e, x) == Lookup(d, x)
    ensures SumCounts(keys, e) == SumCounts(keys, d) + 1
  {
    NoDuplicatesTail(keys);
    if keys[0] == k {
      SumCountsFrame(keys[1..], d, e);
    } else {
      SumCountsBump(keys[1..], k, d, e);
    }
  }

  /** `d` is the count dictionary of `items`. */
  ghost predicate CountsOf(d: Dict<nat>, items: seq<string>)
  {
    && d.keys == Distinct(items)
    && (forall k :: k in d.entries <==> k in items)
    && (forall k :: k in d.entries ==> d.entries[k] == multiset(items)[k])
    && Total(d) == |items|
  }

  /** Reading a count dictionary as line 129 does gives the true count, 0 for an absent key. */
  lemma LookupCount(d: Dict<nat>, items: seq<string>, k: string)
    requires CountsOf(d, items)
    ensures Lookup(d, k) == multiset(items)[k]
  {
    if k !in items {
      assert multiset(items)[k] == 0;
    }
  }

  /** The new dictionary after one step of the `reduce` in `countBy`. */
  function Bump(d: Dict<nat>, val: string): Dict<nat>
  {
    if val in d.entries then Dict(d.keys, d.entries[val := d.entries[val] + 1])
    else Dict(d.keys + [val], d.entries[val := 1])
  }

  lemma BumpKeys(d: Dict<nat>, items: seq<string>, val: string)
    requires d.keys == Distinct(items)
    requires forall k :: k in d.entries <==> k in items
    ensures Bump(d, val).keys == Distinct(items + [val])
    ensures forall k :: k in Bump(d, val).entries <==> k in items + [val]
  {
    assert (items + [val])[..|items|] == items;
  }

  lemma BumpCounts(d: Dict<nat>, items: seq<string>, val: string)
    requires forall k :: k in d.entries <==> k in items
    requires forall k :: k in d.entries ==> d.entries[k] == multiset(items)[k]
    ensures forall k :: k in Bump(d, val).entries ==> Bump(d, val).entries[k] == multiset(items + [val])[k]
  {
    assert multiset(items + [val]) == multiset(items) + multiset{val};
  }

  lemma BumpTotal(d: Dict<nat>, val: string)
    requires WellFormed(d)
    ensures Total(Bump(d, val)) == Total(d) + 1
  {
    var e := Bump(d, val);
    if val in d.entries {
      SumCountsBump(d.keys, val, d, e);
    } else {
      SumCountsFrame(d.keys, d, e);
      SumCountsSnoc(d.keys, val, e);
    }
  }

  /** One step of the `reduce` in `countBy`: bump the count of `val` or add it with 1. */
  lemma CountStep(d: Dict<nat>, items: seq<string>, val: string)
    requires CountsOf(d, items)
    ensures CountsOf(Bump(d, val), items + [val])
  {
    DistinctSpec(items);
    BumpKeys(d, items, val);
    BumpCounts(d, items, val);
    BumpTotal(d, val);
  }

  /**
   * `countBy(array)`: maps each distinct value to its number of occurrences.
   * Its keys are exactly the distinct values in first-occurrence order, and
   * the counts add up to the length of the array.
   */
  method CountBy(items: seq<string>) returns (d: Dict<nat>)
    ensures WellFormed(d)
    ensures d.keys == Distinct(items)
    ensures forall k :: k in d.entries <==> k in items
    ensures forall k :: k in d.entries ==> d.entries[k] == multiset(items)[k]
    ensures Total(d) == |items|
  {
    d := Dict([], map[]);
    var i := 0;
    while i < |items|
      invariant 0 <= i <= |items|
      invariant CountsOf(d, items[..i])
    {
      var val := items[i];
      CountStep(d, items[..i], val);
      assert items[..i + 1] == items[..i] + [val];
      if val in d.entries {
        d := Dict(d.keys, d.entries[val := d.entries[val] + 1]);
      } else {
        d := Dict(d.keys + [val], d.entries[val := 1]);
      }
      i := i + 1;
    }
    assert items[..i] == items;
    DistinctSpec(items);
  }

  /** `array.filter(v => v[attr] === k)`: the members of group `k`, in order. */
  function Select(items: seq<VocabRecord>, attr: Attr, k: string): seq<VocabRecord>
  {
    if items == [] then []
    else
      var last := items[|items| - 1];
      Select(items[..|items| - 1], attr, k) + if Get(last, attr) == k then [last] else []
  }

  lemma ProjectSnoc(items: seq<VocabRecord>, v: VocabRecord, attr: Attr)
    ensures Project(items + [v], attr) == Project(items, attr) + [Get(v, attr)]
  {
  }

  lemma SelectSnoc(items: seq<VocabRecord>, v: VocabRecord, attr: Attr, k: string)
    ensures Select(items + [v], attr, k)
         == Select(items, attr, k) + if Get(v, attr) == k then [v] else []
  {
    assert (items + [v])[..|items|] == items;
  }

  /** `d` is the group dictionary of `items` by `attr`. */
  ghost predicate GroupsOf(d: Dict<seq<VocabRecord>>, items: seq<VocabRecord>, attr: Attr)
  {
    && d.keys == Distinct(Project(items, attr))
    && (forall k :: k in d.entries <==> k in Project(items, attr))
    && (forall k :: k in d.entries ==> d.entries[k] == Select(items, attr, k))
  }

  /** One step of the `reduce` in `groupBy`: append `v` to its group, opening it if new. */
  lemma GroupStep(d: Dict<seq<VocabRecord>>, items: seq<VocabRecord>, v: VocabRecord, attr: Attr,
                  e: Dict<seq<VocabRecord>>)
    requires GroupsOf(d, items, attr)
    requires var k := Get(v, attr);
             e == Dict(if k in d.entries then d.keys else d.keys + [k],
                       d.entries[k := (if k in d.entries then d.entries[k] else []) + [v]])
    ensures GroupsOf(e, items + [v], attr)
  {
    var k := Get(v, attr);
    ProjectSnoc(items, v, attr);
    assert Project(items + [v], attr)[..|items|] == Project(items, attr);
    forall x ensures Select(items + [v], attr, x) == Select(items, attr, x) + if k == x then [v] else [] {
      SelectSnoc(items, v, attr, x);
    }
    SelectNonEmpty(items, attr, k);
  }

  /**
   * `groupBy(array, attr)`: puts every element into the group keyed by its
   * `attr` value, keeping input order within each group; the groups appear in
   * order of first occurrence of their key.
   */
  method GroupBy(items: seq<VocabRecord>, attr: Attr) returns (d: Dict<seq<VocabRecord>>)
    ensures WellFormed(d)
    ensures d.keys == Distinct(Project(items, attr))
    ensures forall k :: k in d.entries <==> k in Project(items, attr)
    ensures forall k :: k in d.entries ==> d.entries[k] == Select(items, attr, k)
  {
    d := Dict([], map[]);
    var i := 0;
    while i < |items|
      invariant 0 <= i <= |items|
      invariant GroupsOf(d, items[..i], attr)
    {
      var v := items[i];
      var k := Get(v, attr);
      var group := if k in d.entries then d.entries[k] else [];
      var keys := if k in d.entries then d.keys else d.keys + [k];
      var e := Dict(keys, d.entries[k := group + [v]]);
      GroupStep(d, items[..i], v, attr, e);
      assert items[..i + 1] == items[..i] + [v];
      d := e;
      i := i + 1;
    }
    assert items[..i] == items;
    DistinctSpec(Project(items, attr));
  }

  /** Every member of group `k` is an element of the array whose key is `k`. */
  lemma {:induction false} SelectMembers(items: seq<VocabRecord>, attr: Attr, k: string, v: VocabRecord)
    requires v in Select(items, attr, k)
    ensures v in items && Get(v, attr) == k
  {
    var init := items[..|items| - 1];
    assert items == init + [items[|items| - 1]];
    if v in Select(init, attr, k) {
      SelectMembers(init, attr, k, v);
    }
  }

  /** Every element is in the group of its own key. */
  lemma {:induction false} ElementInItsGroup(items: seq<VocabRecord>, attr: Attr, v: VocabRecord)
    requires v in items
    ensures v in Select(items, attr, Get(v, attr))
  {
    var init := items[..|items| - 1];
    assert items == init + [items[|items| - 1]];
    if v in init {
      ElementInItsGroup(init, attr, v);
    }
  }

  /** The first member of a group is the earliest element with that key. */
  lemma {:induction false} GroupHeadIsFirst(items: seq<VocabRecord>, attr: Attr, k: string)
    requires Select(items, attr, k) != []
    ensures exists j :: 0 <= j < |items| && items[j] == Select(items, attr, k)[0]
                        && forall i :: 0 <= i < j ==> Get(items[i], attr) != k
  {
    var init := items[..|items| - 1];
    var last := items[|items| - 1];
    assert items == init + [last];
    if Select(init, attr, k) != [] {
      GroupHeadIsFirst(init, attr, k);
      var j :| 0 <= j < |init| && init[j] == Select(init, attr, k)[0]
               && forall i :: 0 <= i < j ==> Get(init[i], attr) != k;
      assert items[j] == init[j];
    } else {
      forall i | 0 <= i < |init| ensures Get(init[i], attr) != k {
        if Get(init[i], attr) == k {
          ElementInItsGroup(init, attr, init[i]);
        }
      }
      assert items[|init|] == Select(items, attr, k)[0];
    }
  }

  /** A group is non-empty exactly when some element has its key. */
  lemma {:induction false} SelectNonEmpty(items: seq<VocabRecord>, attr: Attr, k: string)
    ensures Select(items, attr, k) != [] <==> k in Project(items, attr)
  {
    if items != [] {
      var init := items[..|items| - 1];
      var v := items[|items| - 1];
      assert items == init + [v];
      SelectNonEmpty(init, attr, k);
      ProjectSnoc(init, v, attr);
    }
  }

  /** The groups listed under `keys`, concatenated in key order. */
  function Flatten(keys: seq<string>, items: seq<VocabRecord>, attr: Attr): seq<VocabRecord>
  {
    if keys == [] then [] else Select(items, attr, keys[0]) + Flatten(keys[1..], items, attr)
  }

  lemma {:induction false} FlattenSnocKey(keys: seq<string>, k: string, items: seq<VocabRecord>, attr: Attr)
    ensures Flatten(keys + [k], items, attr) == Flatten(keys, items, attr) + Select(items, attr, k)
  {
    if keys == [] {
      assert keys + [k] == [k];
    } else {
      assert (keys + [k])[1..] == keys[1..] + [k];
      FlattenSnocKey(keys[1..], k, items, attr);
    }
  }

  lemma {:induction false} FlattenSnocElement(keys: seq<string>, items: seq<VocabRecord>, v: VocabRecord, attr: Attr)
    requires NoDuplicates(keys)
    ensures multiset(Flatten(keys, items + [v], attr))
         == multiset(Flatten(keys, items, attr)) + if Get(v, attr) in keys then multiset{v} else multiset{}
  {
    if keys != [] {
      NoDuplicatesTail(keys);
      assert keys == [keys[0]] + keys[1..];
      FlattenSnocElement(keys[1..], items, v, attr);
      SelectSnoc(items, v, attr, keys[0]);
    }
  }

  /**
   * The groups, concatenated in key order, are a permutation of the array:
   * every element lands in exactly one group.
   */
  lemma {:induction false} GroupsPartition(items: seq<VocabRecord>, attr: Attr)
    ensures multiset(Flatten(Distinct(Project(items, attr)), items, attr)) == multiset(items)
  {
    if items != [] {
      var init := items[..|items| - 1];
      var v := items[|items| - 1];
      var k := Get(v, attr);
      var d := Distinct(Project(init, attr));
      assert items == init + [v];
      GroupsPartition(init, attr);
      assert Distinct(Project(items, attr)) == if k in Project(init, attr) then d else d + [k] by {
        ProjectSnoc(init, v, attr);
        assert Project(items, attr)[..|init|] == Project(init, attr);
      }
      DistinctSpec(Project(init, attr));
      FlattenSnocElement(d, init, v, attr);
      if k !in Project(init, attr) {
        FlattenSnocKey(d, k, items, attr);
        SelectSnoc(init, v, attr, k);
        SelectNonEmpty(init, attr, k);
      }
    }
  }
}
