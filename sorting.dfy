/**
 * `sortErrors`: a sorted copy of a file's findings, by the place of the
 * level in the display order and then by line. `Array.prototype.sort` is
 * stable, so findings that compare equal keep their order; the model is
 * an insertion sort that inserts each finding after every one that does
 * not come strictly after it. The sort is stated for any key function and
 * then used with the findings' key.
 */
module Sorting {
  import opened Common
  import opened Report

  /** `names.indexOf(name)`: the first position of `name`, or -1. */
  function IndexOfName(names: seq<string>, name: string): (i: int)
    ensures -1 <= i < |names|
    ensures i >= 0 ==> names[i] == name && name !in names[..i]
    ensures i == -1 <==> name !in names
  {
    if names == [] then -1
    else if names[0] == name then 0
    else
      var i := IndexOfName(names[1..], name);
      assert names[1..][..(if i < 0 then 0 else i)] == names[1..(if i < 0 then 0 else i) + 1];
      if i < 0 then -1 else i + 1
  }

  /** `levelOrder.indexOf(error.level || 'logical')`. */
  function LevelRank(f: Finding): int
  {
    IndexOfName(LevelOrder, Or(f.level, "logical"))
  }

  /** `error.line || 0`. */
  function LineKey(f: Finding): int
  {
    OrInt(f.line, 0)
  }

  /** What the comparator looks at: the level's rank, then the line. */
  datatype SortKey = SortKey(rank: int, line: int)

  function KeyOf(f: Finding): SortKey
  {
    SortKey(LevelRank(f), LineKey(f))
  }

  /** The comparator of `sortErrors`: the rank difference, or the line difference when the ranks agree. */
  function Compare(a: Finding, b: Finding): int
  {
    if LevelRank(a) != LevelRank(b) then LevelRank(a) - LevelRank(b) else LineKey(a) - LineKey(b)
  }

  /** `a` goes strictly before `b`. */
  predicate Before(a: SortKey, b: SortKey)
  {
    a.rank < b.rank || (a.rank == b.rank && a.line < b.line)
  }

  /** `Before` on the keys is exactly a negative comparator, and equal keys exactly a zero one. */
  lemma CompareMeansBefore(a: Finding, b: Finding)
    ensures Compare(a, b) < 0 <==> Before(KeyOf(a), KeyOf(b))
    ensures Compare(a, b) == 0 <==> KeyOf(a) == KeyOf(b)
  {
  }

  /** A finding with no level ranks as "logical"; a level outside the display order ranks before all of them. */
  lemma RankDefaults(f: Finding, g: Finding)
    ensures f.level.None? ==> LevelRank(f) == 2
    ensures Or(f.level, "logical") !in LevelOrder && Or(g.level, "logical") in LevelOrder
            ==> Before(KeyOf(f), KeyOf(g))
  {
    assert LevelOrder[2] == "logical";
    assert LevelOrder[..2] == ["architectural", "syntax"];
  }

  // ---------------------------------------------------------------------
  // A stable insertion sort by a key
  // ---------------------------------------------------------------------

  /** No element goes strictly before an earlier one. */
  predicate SortedBy(s: seq<Finding>, key: Finding -> SortKey)
  {
    forall i, j :: 0 <= i < j < |s| ==> !Before(key(s[j]), key(s[i]))
  }

  /** Insert `x` after every element that `x` does not go strictly before. */
  function Insert(s: seq<Finding>, x: Finding, key: Finding -> SortKey): (r: seq<Finding>)
    ensures |r| == |s| + 1
  {
    if s == [] then [x]
    else if Before(key(x), key(s[0])) then [x] + s
    else [s[0]] + Insert(s[1..], x, key)
  }

  /** Inserting adds exactly the one element. */
  lemma {:induction false} InsertPermutes(s: seq<Finding>, x: Finding, key: Finding -> SortKey)
    ensures multiset(Insert(s, x, key)) == multiset(s) + multiset{x}
  {
    if s != [] && !Before(key(x), key(s[0])) {
      InsertPermutes(s[1..], x, key);
      assert s == [s[0]] + s[1..];
    }
  }

  /** The elements inserted one by one, in their original order. */
  function SortBy(s: seq<Finding>, key: Finding -> SortKey): (r: seq<Finding>)
    ensures |r| == |s|
  {
    if s == [] then []
    else Insert(SortBy(s[..|s| - 1], key), s[|s| - 1], key)
  }

  /** The sorted copy is a permutation of the input. */
  lemma {:induction false} SortByPermutes(s: seq<Finding>, key: Finding -> SortKey)
    ensures multiset(SortBy(s, key)) == multiset(s)
  {
    if s != [] {
      var init, last := s[..|s| - 1], s[|s| - 1];
      SortByPermutes(init, key);
      InsertPermutes(SortBy(init, key), last, key);
      assert s == init + [last];
    }
  }

  /** Inserting into a sorted list keeps it sorted. */
  lemma {:induction false} InsertSorted(s: seq<Finding>, x: Finding, key: Finding -> SortKey)
    requires SortedBy(s, key)
    ensures SortedBy(Insert(s, x, key), key)
  {
    if s != [] && !Before(key(x), key(s[0])) {
      InsertSorted(s[1..], x, key);
      InsertPermutes(s[1..], x, key);
      var rest := Insert(s[1..], x, key);
      forall k | 0 <= k < |rest|
        ensures !Before(key(rest[k]), key(s[0]))
      {
        assert rest[k] in multiset(rest);
        if rest[k] != x {
          assert rest[k] in multiset(s[1..]);
          var m :| 0 <= m < |s[1..]| && s[1..][m] == rest[k];
          assert s[m + 1] == rest[k];
        }
      }
    }
  }

  lemma {:induction false} SortBySorted(s: seq<Finding>, key: Finding -> SortKey)
    ensures SortedBy(SortBy(s, key), key)
  {
    if s != [] {
      SortBySorted(s[..|s| - 1], key);
      InsertSorted(SortBy(s[..|s| - 1], key), s[|s| - 1], key);
    }
  }

  /** The elements of `s` whose key is `k`, in order. */
  function WithKey(s: seq<Finding>, key: Finding -> SortKey, k: SortKey): (r: seq<Finding>)
    ensures |r| <= |s|
  {
    if s == [] then []
    else (if key(s[0]) == k then [s[0]] else []) + WithKey(s[1..], key, k)
  }

  lemma {:induction false} WithKeyAppend(a: seq<Finding>, b: seq<Finding>, key: Finding -> SortKey, k: SortKey)
    ensures WithKey(a + b, key, k) == WithKey(a, key, k) + WithKey(b, key, k)
  {
    if a != [] {
      WithKeyAppend(a[1..], b, key, k);
      assert (a + b)[1..] == a[1..] + b;
    } else {
      assert a + b == b;
    }
  }

  /** In a sorted list that starts after `x`, no element has `x`'s key. */
  lemma {:induction false} NoneWithKeyAfter(s: seq<Finding>, x: Finding, key: Finding -> SortKey)
    requires SortedBy(s, key) && s != [] && Before(key(x), key(s[0]))
    ensures WithKey(s, key, key(x)) == []
  {
    if |s| > 1 {
      assert !Before(key(s[1]), key(s[0]));
      NoneWithKeyAfter(s[1..], x, key);
    }
  }

  /** Inserting into a sorted list puts the new element after every element with its key. */
  lemma {:induction false} InsertStable(s: seq<Finding>, x: Finding, key: Finding -> SortKey, k: SortKey)
    requires SortedBy(s, key)
    ensures WithKey(Insert(s, x, key), key, k) == WithKey(s, key, k) + WithKey([x], key, k)
    decreases |s|
  {
    if s == [] {
      assert Insert(s, x, key) == [x];
    } else if Before(key(x), key(s[0])) {
      InsertAtFrontStable(s, x, key, k);
    } else {
      assert SortedBy(s[1..], key) by {
        forall i, j | 0 <= i < j < |s[1..]|
          ensures !Before(key(s[1..][j]), key(s[1..][i]))
        {
          assert s[1..][j] == s[j + 1] && s[1..][i] == s[i + 1];
        }
      }
      InsertStable(s[1..], x, key, k);
      InsertAfterHeadStable(s, x, key, k);
    }
  }

  /** The new element goes first: no element of the list has its key. */
  lemma InsertAtFrontStable(s: seq<Finding>, x: Finding, key: Finding -> SortKey, k: SortKey)
    requires SortedBy(s, key) && s != [] && Before(key(x), key(s[0]))
    ensures WithKey(Insert(s, x, key), key, k) == WithKey(s, key, k) + WithKey([x], key, k)
  {
    WithKeyAppend([x], s, key, k);
    assert Insert(s, x, key) == [x] + s;
    if key(x) == k {
      NoneWithKeyAfter(s, x, key);
      assert WithKey(s, key, k) == [];
    } else {
      assert WithKey([x], key, k) == [] + WithKey([], key, k);
    }
  }

  /** The new element goes after the head: the head's part is unchanged in front. */
  lemma InsertAfterHeadStable(s: seq<Finding>, x: Finding, key: Finding -> SortKey, k: SortKey)
    requires s != [] && !Before(key(x), key(s[0]))
    requires WithKey(Insert(s[1..], x, key), key, k) == WithKey(s[1..], key, k) + WithKey([x], key, k)
    ensures WithKey(Insert(s, x, key), key, k) == WithKey(s, key, k) + WithKey([x], key, k)
  {
    var rest := Insert(s[1..], x, key);
    assert Insert(s, x, key) == [s[0]] + rest;
    ConsKeepsStable(s[0], s[1..], rest, x, key, k);
    assert [s[0]] + s[1..] == s;
  }

  /** Putting the same element in front of both sides keeps the new element after the others with its key. */
  lemma ConsKeepsStable(h: Finding, t: seq<Finding>, rest: seq<Finding>, x: Finding, key: Finding -> SortKey, k: SortKey)
    requires WithKey(rest, key, k) == WithKey(t, key, k) + WithKey([x], key, k)
    ensures WithKey([h] + rest, key, k) == WithKey([h] + t, key, k) + WithKey([x], key, k)
  {
    WithKeyAppend([h], rest, key, k);
    WithKeyAppend([h], t, key, k);
  }

  /** The sort is stable: the elements with any one key keep their relative order. */
  lemma {:induction false} SortByStable(s: seq<Finding>, key: Finding -> SortKey, k: SortKey)
    ensures WithKey(SortBy(s, key), key, k) == WithKey(s, key, k)
  {
    if s != [] {
      var init, last := s[..|s| - 1], s[|s| - 1];
      SortByStable(init, key, k);
      SortBySorted(init, key);
      InsertStable(SortBy(init, key), last, key, k);
      WithKeyAppend(init, [last], key, k);
      assert init + [last] == s;
    }
  }

  // ---------------------------------------------------------------------
  // sortErrors
  // ---------------------------------------------------------------------

  /**
   * `sortErrors`: a sorted copy, a permutation of the findings, in which
   * findings with the same rank and line keep their order. The input is
   * a value and is not changed.
   */
  function SortErrors(errors: seq<Finding>): (r: seq<Finding>)
    ensures multiset(r) == multiset(errors)
  {
    SortByPermutes(errors, KeyOf);
    SortBy(errors, KeyOf)
  }

  /** The copy is in comparator order and stable, whatever the findings. */
  lemma SortErrorsCorrect(errors: seq<Finding>, k: SortKey)
    ensures forall i, j :: 0 <= i < j < |SortErrors(errors)| ==> Compare(SortErrors(errors)[j], SortErrors(errors)[i]) >= 0
    ensures WithKey(SortErrors(errors), KeyOf, k) == WithKey(errors, KeyOf, k)
  {
    SortBySorted(errors, KeyOf);
    SortByStable(errors, KeyOf, k);
    var r := SortErrors(errors);
    forall i, j | 0 <= i < j < |r|
      ensures Compare(r[j], r[i]) >= 0
    {
      CompareMeansBefore(r[j], r[i]);
    }
  }
}
