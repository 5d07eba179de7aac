/**
 * `collect_sequence`: from a FILECREATE at `start`, scan forward and collect the candidate
 * records of one big transaction. Both variants are covered by a `Policy`:
 * `EntityOnly` is get_statistics.py, `TimeWindowed(w)` is find_sequence_pattern.py.
 */
module SequenceCollector {
  import opened Records

  /**
   * Whether the scan keeps `tx` for an opener whose entity is `opener`: FILEAPPEND and
   * FILEDELETE only with the opener's entity (and, entity-only, never with a falsy one);
   * every other type always.
   */
  predicate Keeps(policy: Policy, opener: EntityId, tx: Tx) {
    !IsAppendOrDelete(tx.kind) ||
    ((policy.TimeWindowed? || !Falsy(tx.entity)) && tx.entity == opener)
  }

  /** Whether `tx` is past the window of an opener stamped `openTime` (windowed variant only). */
  predicate PastWindow(policy: Policy, openTime: int, tx: Tx) {
    policy.TimeWindowed? && tx.timestamp - openTime > policy.window
  }

  /** The positions the forward scan collects from position `j` on, for the given opener. */
  function Scan(s: seq<Tx>, opener: Tx, j: nat, policy: Policy): (r: seq<nat>)
    ensures forall k :: 0 <= k < |r| ==> j <= r[k] < |s|
    ensures forall k, l :: 0 <= k < l < |r| ==> r[k] < r[l]
    decreases |s| - j
  {
    if j >= |s| || PastWindow(policy, opener.timestamp, s[j]) then []
    else if !Keeps(policy, opener.entity, s[j]) then Scan(s, opener, j + 1, policy)
    else if s[j].kind == FileDelete then [j]
    else [j] + Scan(s, opener, j + 1, policy)
  }

  /** The positions `collect_sequence(start, s)` returns. */
  function Collected(s: seq<Tx>, start: nat, policy: Policy): (r: seq<nat>)
    requires start < |s|
    ensures forall k :: 0 <= k < |r| ==> start <= r[k] < |s|
    ensures forall k, l :: 0 <= k < l < |r| ==> r[k] < r[l]
  {
    if policy.EntityOnly? && Falsy(s[start].entity) then []
    else Scan(s, s[start], start, policy)
  }

  /** The records of `s` at `indices`, in that order. */
  function Pick(s: seq<Tx>, indices: seq<nat>): (r: seq<Tx>)
    requires forall k :: 0 <= k < |indices| ==> indices[k] < |s|
    ensures |r| == |indices|
    ensures forall k :: 0 <= k < |r| ==> r[k] == s[indices[k]]
  {
    seq(|indices|, k requires 0 <= k < |indices| => s[indices[k]])
  }

  /** Every position indexes `s`. */
  ghost predicate InRange(s: seq<Tx>, r: seq<nat>) {
    forall k :: 0 <= k < |r| ==> r[k] < |s|
  }

  /** Every collected record is kept by the entity rule and lies within the window. */
  ghost predicate KeptInWindow(s: seq<Tx>, opener: Tx, policy: Policy, r: seq<nat>)
    requires InRange(s, r)
  {
    forall k :: 0 <= k < |r| ==>
      Keeps(policy, opener.entity, s[r[k]]) && !PastWindow(policy, opener.timestamp, s[r[k]])
  }

  /** Only the last collected record can be a FILEDELETE. */
  ghost predicate DeleteOnlyLast(s: seq<Tx>, r: seq<nat>)
    requires InRange(s, r)
  {
    forall k :: 0 <= k < |r| - 1 ==> s[r[k]].kind != FileDelete
  }

  /**
   * From `j` to the last collected position nothing is past the window, and every
   * record the entity rule keeps is collected.
   */
  ghost predicate GapFree(s: seq<Tx>, opener: Tx, j: nat, policy: Policy, r: seq<nat>)
    requires InRange(s, r)
  {
    |r| > 0 ==> forall m :: j <= m <= r[|r| - 1] ==>
      !PastWindow(policy, opener.timestamp, s[m]) && (Keeps(policy, opener.entity, s[m]) ==> m in r)
  }

  /**
   * Unless the collection closed on a FILEDELETE, every kept record from `j` on that
   * precedes the first record past the window is collected.
   */
  ghost predicate Exhaustive(s: seq<Tx>, opener: Tx, j: nat, policy: Policy, r: seq<nat>)
    requires InRange(s, r)
  {
    (r == [] || s[r[|r| - 1]].kind != FileDelete) ==>
      forall m :: (j <= m < |s| && Keeps(policy, opener.entity, s[m]) &&
        (forall q :: j <= q <= m ==> !PastWindow(policy, opener.timestamp, s[q]))) ==> m in r
  }

  lemma {:induction false} ScanMembers(s: seq<Tx>, opener: Tx, j: nat, policy: Policy)
    ensures KeptInWindow(s, opener, policy, Scan(s, opener, j, policy))
    ensures DeleteOnlyLast(s, Scan(s, opener, j, policy))
    decreases |s| - j
  {
    if j < |s| && !PastWindow(policy, opener.timestamp, s[j]) {
      ScanMembers(s, opener, j + 1, policy);
      var r, rest := Scan(s, opener, j, policy), Scan(s, opener, j + 1, policy);
      if Keeps(policy, opener.entity, s[j]) && s[j].kind != FileDelete {
        assert r == [j] + rest;
        assert forall k :: 1 <= k < |r| ==> r[k] == rest[k - 1];
      }
    }
  }

  lemma {:induction false} ScanGapFree(s: seq<Tx>, opener: Tx, j: nat, policy: Policy)
    ensures GapFree(s, opener, j, policy, Scan(s, opener, j, policy))
    decreases |s| - j
  {
    if j < |s| {
      ScanUnfold(s, opener, j, policy);
      if !PastWindow(policy, opener.timestamp, s[j]) {
        ScanGapFree(s, opener, j + 1, policy);
        var rest := Scan(s, opener, j + 1, policy);
        if !Keeps(policy, opener.entity, s[j]) {
          GapFreeSkip(s, opener, j, policy, rest);
        } else if s[j].kind != FileDelete {
          GapFreeCons(s, opener, j, policy, rest);
        }
      }
    }
  }

  /** A position the scan skips keeps the rest gap-free from one step earlier. */
  lemma GapFreeSkip(s: seq<Tx>, opener: Tx, j: nat, policy: Policy, rest: seq<nat>)
    requires j < |s| && InRange(s, rest)
    requires forall k :: 0 <= k < |rest| ==> j < rest[k]
    requires !PastWindow(policy, opener.timestamp, s[j]) && !Keeps(policy, opener.entity, s[j])
    requires GapFree(s, opener, j + 1, policy, rest)
    ensures GapFree(s, opener, j, policy, rest)
  {
  }

  /** A position the scan keeps, put in front of the rest, stays gap-free. */
  lemma GapFreeCons(s: seq<Tx>, opener: Tx, j: nat, policy: Policy, rest: seq<nat>)
    requires j < |s| && InRange(s, rest)
    requires forall k :: 0 <= k < |rest| ==> j < rest[k]
    requires !PastWindow(policy, opener.timestamp, s[j])
    requires GapFree(s, opener, j + 1, policy, rest)
    ensures GapFree(s, opener, j, policy, [j] + rest)
  {
    var r := [j] + rest;
    if rest != [] {
      assert r[|r| - 1] == rest[|rest| - 1];
      forall m | j <= m <= r[|r| - 1]
        ensures !PastWindow(policy, opener.timestamp, s[m])
        ensures Keeps(policy, opener.entity, s[m]) ==> m in r
      {
        if m > j {
          assert Keeps(policy, opener.entity, s[m]) ==> m in rest;
        }
      }
    }
  }

  lemma {:induction false} ScanExhaustive(s: seq<Tx>, opener: Tx, j: nat, policy: Policy)
    ensures Exhaustive(s, opener, j, policy, Scan(s, opener, j, policy))
    decreases |s| - j
  {
    if j < |s| {
      ScanUnfold(s, opener, j, policy);
      if !PastWindow(policy, opener.timestamp, s[j]) {
        ScanExhaustive(s, opener, j + 1, policy);
        var r, rest := Scan(s, opener, j, policy), Scan(s, opener, j + 1, policy);
        if Keeps(policy, opener.entity, s[j]) && s[j].kind != FileDelete {
          assert r == [j] + rest;
          assert rest != [] ==> r[|r| - 1] == rest[|rest| - 1];
          if s[r[|r| - 1]].kind != FileDelete {
            forall m | j <= m < |s| && Keeps(policy, opener.entity, s[m]) &&
                (forall q :: j <= q <= m ==> !PastWindow(policy, opener.timestamp, s[q]))
              ensures m in r
            {
              if m > j {
                assert m in rest;
              }
            }
          }
        }
      }
    }
  }

  /**
   * The opener: entity-only, a falsy opener entity yields nothing; otherwise a FILECREATE
   * opener yields a sequence exactly when the window admits the opener itself (so a windowed
   * opener with no entity id still collects); a non-empty result starts at `start`.
   */
  lemma CollectedOpener(s: seq<Tx>, start: nat, policy: Policy)
    requires start < |s|
    ensures policy.EntityOnly? && Falsy(s[start].entity) ==> Collected(s, start, policy) == []
    ensures s[start].kind == FileCreate ==>
      (Collected(s, start, policy) != [] <==>
        (policy.EntityOnly? ==> !Falsy(s[start].entity)) && (policy.TimeWindowed? ==> policy.window >= 0))
    ensures Collected(s, start, policy) != [] ==> Collected(s, start, policy)[0] == start
  {
  }

  /** FILEAPPEND and FILEDELETE records at `r` carry entity `e`. */
  ghost predicate FileOpsCarry(s: seq<Tx>, r: seq<nat>, e: EntityId)
    requires InRange(s, r)
  {
    forall k :: 0 <= k < |r| && IsAppendOrDelete(s[r[k]].kind) ==> s[r[k]].entity == e
  }

  /** Records at `r` are stamped at most `window` after `t0`. */
  ghost predicate WithinWindow(s: seq<Tx>, r: seq<nat>, t0: int, window: int)
    requires InRange(s, r)
  {
    forall k :: 0 <= k < |r| ==> s[r[k]].timestamp - t0 <= window
  }

  /**
   * The shape `collect_sequence` promises: every FILEAPPEND/FILEDELETE carries the opener's
   * entity id; at most one FILEDELETE, and only as the last record; windowed, nothing
   * stamped more than the window after the opener (positions increase from `start` by
   * the contract of `Collected`).
   */
  lemma CollectedShape(s: seq<Tx>, start: nat, policy: Policy)
    requires start < |s|
    ensures FileOpsCarry(s, Collected(s, start, policy), s[start].entity)
    ensures DeleteOnlyLast(s, Collected(s, start, policy))
    ensures policy.TimeWindowed? ==>
      WithinWindow(s, Collected(s, start, policy), s[start].timestamp, policy.window)
  {
    if !(policy.EntityOnly? && Falsy(s[start].entity)) {
      ScanMembers(s, s[start], start, policy);
    }
  }

  /**
   * Completeness: from the opener up to the last collected position, nothing is past the
   * window (a record stamped exactly `window` after the opener is still in) and a position
   * is collected exactly when its record is kept; unless the sequence is closed by a
   * FILEDELETE, nothing kept before the first record past the window is missed.
   */
  lemma CollectedComplete(s: seq<Tx>, start: nat, policy: Policy)
    requires start < |s|
    requires policy.EntityOnly? ==> !Falsy(s[start].entity)
    ensures GapFree(s, s[start], start, policy, Collected(s, start, policy))
    ensures KeptInWindow(s, s[start], policy, Collected(s, start, policy))
    ensures Exhaustive(s, s[start], start, policy, Collected(s, start, policy))
  {
    ScanMembers(s, s[start], start, policy);
    ScanGapFree(s, s[start], start, policy);
    ScanExhaustive(s, s[start], start, policy);
  }

  /** One step of the scan at position `i`, in the order the loop tests its cases. */
  lemma ScanUnfold(s: seq<Tx>, opener: Tx, i: nat, policy: Policy)
    requires i < |s|
    ensures PastWindow(policy, opener.timestamp, s[i]) ==> Scan(s, opener, i, policy) == []
    ensures !PastWindow(policy, opener.timestamp, s[i]) && !Keeps(policy, opener.entity, s[i]) ==>
      Scan(s, opener, i, policy) == Scan(s, opener, i + 1, policy)
    ensures !PastWindow(policy, opener.timestamp, s[i]) && Keeps(policy, opener.entity, s[i]) ==>
      Scan(s, opener, i, policy) ==
        if s[i].kind == FileDelete then [i] else [i] + Scan(s, opener, i + 1, policy)
  {
  }

  lemma AppendAssoc(a: seq<nat>, x: nat, c: seq<nat>)
    ensures (a + [x]) + c == a + ([x] + c)
  {
  }

  lemma PickAppend(s: seq<Tx>, indices: seq<nat>, i: nat)
    requires InRange(s, indices) && i < |s|
    ensures Pick(s, indices + [i]) == Pick(s, indices) + [s[i]]
  {
  }

  /** `collect_sequence`: the forward scan with its `continue`s and `break`s. */
  method CollectSequence(s: seq<Tx>, start: nat, policy: Policy) returns (sequence: seq<Tx>, indices: seq<nat>)
    requires start < |s|
    ensures indices == Collected(s, start, policy)
    ensures sequence == Pick(s, indices)
  {
    sequence, indices := [], [];
    var opener := s[start];
    if policy.EntityOnly? && Falsy(opener.entity) {
      return;
    }
    ghost var whole := Scan(s, opener, start, policy);
    for i := start to |s|
      invariant indices + Scan(s, opener, i, policy) == whole
      invariant InRange(s, indices)
      invariant sequence == Pick(s, indices)
    {
      var tx := s[i];
      ghost var rest := Scan(s, opener, i, policy);
      ScanUnfold(s, opener, i, policy);
      if policy.TimeWindowed? && tx.timestamp - opener.timestamp > policy.window {
        assert indices + [] == indices;
        break;
      }
      if policy.EntityOnly? && IsAppendOrDelete(tx.kind) && Falsy(tx.entity) {
        continue;
      }
      if IsAppendOrDelete(tx.kind) && tx.entity != opener.entity {
        continue;
      }
      PickAppend(s, indices, i);
      sequence := sequence + [tx];
      if tx.kind == FileDelete {
        indices := indices + [i];
        break;
      }
      assert Keeps(policy, opener.entity, tx);
      assert rest == [i] + Scan(s, opener, i + 1, policy);
      AppendAssoc(indices, i, Scan(s, opener, i + 1, policy));
      indices := indices + [i];
    }
    assert Scan(s, opener, |s|, policy) == [];
  }

  /** An upload whose delete arrives one second after the 30-second window. */
  function Boundary(): seq<Tx> {
    [Tx(0, FileCreate, Some("e1")), Tx(30, EthereumTransaction, None), Tx(31, FileDelete, Some("e1"))]
  }

  /**
   * A record stamped exactly 30 seconds after the opener is still collected, and the
   * first one past the window ends the scan; without the window the delete closes it.
   */
  lemma BoundaryExamples(s: seq<Tx>)
    requires s == Boundary()
    ensures Collected(s, 0, TimeWindowed(30)) == [0, 1]
    ensures Collected(s, 0, EntityOnly) == [0, 1, 2]
  {
    ScanUnfold(s, s[0], 2, TimeWindowed(30));
    ScanUnfold(s, s[0], 2, EntityOnly);
    assert Scan(s, s[0], 1, TimeWindowed(30)) == [1];
    assert Scan(s, s[0], 1, EntityOnly) == [1, 2];
  }

  /** File operations without entity id, opened by a FILECREATE without one. */
  function Unnamed(): seq<Tx> {
    [Tx(0, FileCreate, None), Tx(1, FileAppend, None), Tx(2, FileDelete, None)]
  }

  /** Windowed, a `None` opener collects the `None` file operations; entity-only, nothing. */
  lemma UnnamedExamples(s: seq<Tx>)
    requires s == Unnamed()
    ensures Collected(s, 0, TimeWindowed(30)) == [0, 1, 2]
    ensures Collected(s, 0, EntityOnly) == []
  {
    ScanUnfold(s, s[0], 2, TimeWindowed(30));
    assert Scan(s, s[0], 1, TimeWindowed(30)) == [1, 2];
  }
}
