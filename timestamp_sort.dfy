/**
 * The in-place sort of the record list by timestamp that opens `process_transactions`.
 * Python's `list.sort` is stable; the model sorts by insertion, and `StableSortUnique`
 * shows that every stable sort by timestamp yields the same list.
 */
module TimestampSort {
  import opened Records

  /** Inserts `x` after every trailing record of `s` stamped later than `x`. */
  function Insert(s: seq<Tx>, x: Tx): (r: seq<Tx>)
    ensures |r| == |s| + 1
  {
    if s == [] || s[|s| - 1].timestamp <= x.timestamp then s + [x]
    else Insert(s[..|s| - 1], x) + [s[|s| - 1]]
  }

  /** The stable sort by timestamp, defined by insertion. */
  function SortByTimestamp(s: seq<Tx>): (r: seq<Tx>)
    ensures |r| == |s|
  {
    if s == [] then [] else Insert(SortByTimestamp(s[..|s| - 1]), s[|s| - 1])
  }

  ghost predicate Sorted(s: seq<Tx>) {
    forall i, j :: 0 <= i < j < |s| ==> s[i].timestamp <= s[j].timestamp
  }

  /** The records of `s` stamped `t`, in their order in `s`. */
  function WithTimestamp(s: seq<Tx>, t: int): seq<Tx> {
    if s == [] then []
    else WithTimestamp(s[..|s| - 1], t) + (if s[|s| - 1].timestamp == t then [s[|s| - 1]] else [])
  }

  /** `r` orders the records of `s` by timestamp and keeps equal timestamps in input order. */
  ghost predicate StableSortOf(r: seq<Tx>, s: seq<Tx>) {
    Sorted(r) && SameGroups(r, s)
  }

  /** For every timestamp, the two lists hold the same records with it, in the same order. */
  ghost predicate SameGroups(r: seq<Tx>, s: seq<Tx>) {
    forall t :: WithTimestamp(r, t) == WithTimestamp(s, t)
  }

  lemma {:induction false} WithTimestampConcat(a: seq<Tx>, b: seq<Tx>, t: int)
    ensures WithTimestamp(a + b, t) == WithTimestamp(a, t) + WithTimestamp(b, t)
    decreases |b|
  {
    if b == [] {
      assert a + b == a;
    } else {
      var b' := b[..|b| - 1];
      assert (a + b)[..|a + b| - 1] == a + b';
      WithTimestampConcat(a, b', t);
    }
  }

  lemma {:induction false} WithTimestampMembers(s: seq<Tx>, t: int)
    ensures forall z :: z in WithTimestamp(s, t) ==> z in s && z.timestamp == t
    decreases |s|
  {
    if s != [] {
      WithTimestampMembers(s[..|s| - 1], t);
      assert forall z :: z in s[..|s| - 1] ==> z in s;
    }
  }

  lemma {:induction false} InsertMultiset(s: seq<Tx>, x: Tx)
    ensures multiset(Insert(s, x)) == multiset(s) + multiset{x}
    decreases |s|
  {
    if !(s == [] || s[|s| - 1].timestamp <= x.timestamp) {
      var s' := s[..|s| - 1];
      InsertMultiset(s', x);
      assert s == s' + [s[|s| - 1]];
    }
  }

  lemma {:induction false} InsertSorted(s: seq<Tx>, x: Tx)
    requires Sorted(s)
    ensures Sorted(Insert(s, x))
    decreases |s|
  {
    if !(s == [] || s[|s| - 1].timestamp <= x.timestamp) {
      var s', last := s[..|s| - 1], s[|s| - 1];
      InsertSorted(s', x);
      InsertMultiset(s', x);
      var r := Insert(s', x);
      forall k | 0 <= k < |r| ensures r[k].timestamp <= last.timestamp {
        assert r[k] in multiset(r);
        assert r[k] in multiset(s') || r[k] == x;
      }
    }
  }

  lemma WithTimestampSingle(y: Tx, t: int)
    ensures WithTimestamp([y], t) == if y.timestamp == t then [y] else []
  {
    assert [y][..0] == [];
  }

  /** Insertion keeps, for every timestamp, the order of the records stamped with it. */
  lemma {:induction false} InsertStable(s: seq<Tx>, x: Tx, t: int)
    ensures WithTimestamp(Insert(s, x), t) == WithTimestamp(s, t) + WithTimestamp([x], t)
    decreases |s|
  {
    if s == [] || s[|s| - 1].timestamp <= x.timestamp {
      WithTimestampConcat(s, [x], t);
    } else {
      var s', last := s[..|s| - 1], s[|s| - 1];
      assert Insert(s, x) == Insert(s', x) + [last];
      InsertStable(s', x, t);
      WithTimestampConcat(Insert(s', x), [last], t);
      WithTimestampConcat(s', [last], t);
      assert s == s' + [last];
      WithTimestampSingle(x, t);
      WithTimestampSingle(last, t);
      if x.timestamp == t {
        assert WithTimestamp([last], t) == [];
        assert WithTimestamp(Insert(s, x), t) == WithTimestamp(s', t) + [x];
      } else {
        assert WithTimestamp([x], t) == [];
        assert WithTimestamp(Insert(s, x), t) == WithTimestamp(s', t) + WithTimestamp([last], t);
      }
    }
  }


  /** The sort orders by timestamp and keeps records with equal timestamps in input order. */
  lemma {:induction false} SortIsStable(s: seq<Tx>)
    ensures StableSortOf(SortByTimestamp(s), s)
    decreases |s|
  {
    if s != [] {
      var s', last := s[..|s| - 1], s[|s| - 1];
      SortIsStable(s');
      InsertSorted(SortByTimestamp(s'), last);
      forall t ensures WithTimestamp(SortByTimestamp(s), t) == WithTimestamp(s, t) {
        InsertStable(SortByTimestamp(s'), last, t);
        WithTimestampConcat(s', [last], t);
        assert s == s' + [last];
        assert [last][..0] == [];
      }
    }
  }

  /** The sort is a permutation of its input. */
  lemma {:induction false} SortIsPermutation(s: seq<Tx>)
    ensures multiset(SortByTimestamp(s)) == multiset(s)
    decreases |s|
  {
    if s != [] {
      var s', last := s[..|s| - 1], s[|s| - 1];
      SortIsPermutation(s');
      InsertMultiset(SortByTimestamp(s'), last);
      assert s == s' + [last];
    }
  }

  /** Sorting a list that is already in timestamp order leaves it as it is. */
  lemma {:induction false} SortOfSortedIsIdentity(s: seq<Tx>)
    requires Sorted(s)
    ensures SortByTimestamp(s) == s
    decreases |s|
  {
    if s != [] {
      var s' := s[..|s| - 1];
      SortOfSortedIsIdentity(s');
      if |s'| > 0 {
        assert s'[|s'| - 1].timestamp <= s[|s| - 1].timestamp;
      }
      assert s == s' + [s[|s| - 1]];
    }
  }

  lemma LastGroupNonEmpty(r: seq<Tx>)
    requires r != []
    ensures WithTimestamp(r, r[|r| - 1].timestamp) != []
  {
  }

  /** The last record of a sorted list carries the largest timestamp. */
  lemma SortedLastIsMax(r: seq<Tx>, z: Tx)
    requires Sorted(r) && r != [] && z in r
    ensures z.timestamp <= r[|r| - 1].timestamp
  {
  }

  /** Two sorted lists with the same groups end with the same record. */
  lemma SameGroupsSameLast(r1: seq<Tx>, r2: seq<Tx>)
    requires Sorted(r1) && Sorted(r2) && r1 != [] && r2 != []
    requires SameGroups(r1, r2)
    ensures r1[|r1| - 1] == r2[|r2| - 1]
  {
    var x, y := r1[|r1| - 1], r2[|r2| - 1];
    LastGroupNonEmpty(r1);
    LastGroupNonEmpty(r2);
    WithTimestampMembers(r1, y.timestamp);
    WithTimestampMembers(r2, x.timestamp);
    var wy := WithTimestamp(r2, y.timestamp);
    assert wy[|wy| - 1] == y;
    assert y in WithTimestamp(r1, y.timestamp);
    SortedLastIsMax(r1, y);
    var wx := WithTimestamp(r1, x.timestamp);
    assert wx[|wx| - 1] == x;
    assert x in WithTimestamp(r2, x.timestamp);
    SortedLastIsMax(r2, x);
  }

  /** Dropping the same last record from both lists keeps their groups equal. */
  lemma DropLastKeepsGroups(r1: seq<Tx>, r2: seq<Tx>)
    requires r1 != [] && r2 != [] && r1[|r1| - 1] == r2[|r2| - 1]
    requires SameGroups(r1, r2)
    ensures SameGroups(r1[..|r1| - 1], r2[..|r2| - 1])
  {
    var x := r1[|r1| - 1];
    var p1, p2 := r1[..|r1| - 1], r2[..|r2| - 1];
    forall t ensures WithTimestamp(p1, t) == WithTimestamp(p2, t) {
      var w1, w2 := WithTimestamp(p1, t), WithTimestamp(p2, t);
      var tail := if x.timestamp == t then [x] else [];
      assert WithTimestamp(r1, t) == w1 + tail;
      assert WithTimestamp(r2, t) == w2 + tail;
      assert w1 == (w1 + tail)[..|w1|] && w2 == (w2 + tail)[..|w2|];
    }
  }

  /** Lists with the same groups are both empty or both not. */
  lemma SameGroupsEmpty(r1: seq<Tx>, r2: seq<Tx>)
    requires SameGroups(r1, r2)
    ensures r1 == [] <==> r2 == []
  {
    if r1 != [] {
      LastGroupNonEmpty(r1);
      assert WithTimestamp(r2, r1[|r1| - 1].timestamp) != [];
    }
    if r2 != [] {
      LastGroupNonEmpty(r2);
      assert WithTimestamp(r1, r2[|r2| - 1].timestamp) != [];
    }
  }

  /** Two timestamp-ordered lists with the same records per timestamp, in the same order, are equal. */
  lemma {:induction false} SortedWithSameGroupsAreEqual(r1: seq<Tx>, r2: seq<Tx>)
    requires Sorted(r1) && Sorted(r2) && SameGroups(r1, r2)
    ensures r1 == r2
    decreases |r1| + |r2|
  {
    SameGroupsEmpty(r1, r2);
    if r1 != [] {
      SameGroupsSameLast(r1, r2);
      DropLastKeepsGroups(r1, r2);
      SortedWithSameGroupsAreEqual(r1[..|r1| - 1], r2[..|r2| - 1]);
      assert r1 == r1[..|r1| - 1] + [r1[|r1| - 1]];
      assert r2 == r2[..|r2| - 1] + [r2[|r2| - 1]];
    }
  }


  /**
   * Every stable sort by timestamp of `s` is `SortByTimestamp(s)`, so the insertion sort
   * below computes what Python's stable `list.sort` computes.
   */
  lemma StableSortUnique(r: seq<Tx>, s: seq<Tx>)
    requires StableSortOf(r, s)
    ensures r == SortByTimestamp(s)
  {
    SortIsStable(s);
    SortedWithSameGroupsAreEqual(r, SortByTimestamp(s));
  }

  /** Where `Insert` puts `x`: after the last record not stamped later than `x`. */
  lemma {:induction false} InsertPosition(s: seq<Tx>, j: nat, x: Tx)
    requires j <= |s| && (j == 0 || s[j - 1].timestamp <= x.timestamp)
    requires forall k :: j <= k < |s| ==> s[k].timestamp > x.timestamp
    ensures Insert(s, x) == s[..j] + [x] + s[j..]
    decreases |s|
  {
    if j < |s| {
      var s' := s[..|s| - 1];
      InsertPosition(s', j, x);
      assert s'[..j] == s[..j];
      assert s'[j..] + [s[|s| - 1]] == s[j..];
    } else {
      assert s[..j] == s;
    }
  }

  /** The list the shifting loop leaves: `sorted` with `x` placed at `j`. */
  lemma ShiftedIsInsert(sorted: seq<Tx>, x: Tx, j: nat, r: seq<Tx>)
    requires j <= |sorted| && |r| == |sorted| + 1
    requires j == 0 || sorted[j - 1].timestamp <= x.timestamp
    requires forall k :: j <= k < |sorted| ==> sorted[k].timestamp > x.timestamp
    requires forall k :: 0 <= k < j ==> r[k] == sorted[k]
    requires r[j] == x
    requires forall k :: j < k < |r| ==> r[k] == sorted[k - 1]
    ensures r == Insert(sorted, x)
  {
    var want := sorted[..j] + [x] + sorted[j..];
    forall k | 0 <= k < |r| ensures r[k] == want[k] {
      if k > j {
        assert want[k] == sorted[k - 1];
      }
    }
    InsertPosition(sorted, j, x);
  }

  /** One insertion step: moves `a[i]` left past the records of `a[..i]` stamped later. */
  method InsertLast(a: array<Tx>, i: nat)
    requires i < a.Length
    modifies a
    ensures a[..i + 1] == Insert(old(a[..i]), old(a[i]))
    ensures a[i + 1..] == old(a[i + 1..])
  {
    var x := a[i];
    ghost var sorted := a[..i];
    var j := i;
    while j > 0 && a[j - 1].timestamp > x.timestamp
      invariant 0 <= j <= i
      invariant forall k :: 0 <= k < j ==> a[k] == sorted[k]
      invariant forall k :: j < k <= i ==> a[k] == sorted[k - 1]
      invariant forall k :: j <= k < i ==> sorted[k].timestamp > x.timestamp
      invariant forall k :: i < k < a.Length ==> a[k] == old(a[k])
    {
      a[j] := a[j - 1];
      j := j - 1;
    }
    a[j] := x;
    ShiftedIsInsert(sorted, x, j, a[..i + 1]);
    assert a[i + 1..] == old(a[i + 1..]);
  }

  /** Sorts `a` by timestamp in place, stably. */
  method SortInPlace(a: array<Tx>)
    modifies a
    ensures a[..] == SortByTimestamp(old(a[..]))
  {
    ghost var input := a[..];
    var i := 0;
    while i < a.Length
      invariant 0 <= i <= a.Length
      invariant a[..i] == SortByTimestamp(input[..i])
      invariant a[i..] == input[i..]
    {
      InsertLast(a, i);
      assert input[..i + 1][..i] == input[..i];
      i := i + 1;
    }
    assert input[..a.Length] == input;
  }
}
