/**
 * `process_transactions`: sort the records, then (first loop) turn every unconsumed
 * FILECREATE whose collected sequence validates into one big transaction, and (second
 * loop) count every ETHEREUMTRANSACTION left unconsumed as a small one.
 */
module TransactionCounting {
  import opened Records
  import opened TimestampSort
  import opened SequenceCollector
  import opened SequenceValidator
  import opened ChunkBuckets

  /**
   * The state of the first loop: `processed_indices`, the running total,
   * `big_transactions`, and the index lists of the accepted sequences.
   */
  datatype Tally = Tally(consumed: set<nat>, total: nat, big: map<string, nat>, accepted: seq<seq<nat>>)

  function Elems(xs: seq<nat>): set<nat> {
    set x | x in xs
  }

  /** The first loop's body at position `i`. */
  function Step(s: seq<Tx>, policy: Policy, i: nat, t: Tally): Tally
    requires i < |s|
  {
    if i in t.consumed || s[i].kind != FileCreate then t
    else
      var indices := Collected(s, i, policy);
      if indices == [] then t
      else
        var verdict := Validate(Pick(s, indices), policy);
        if !verdict.valid then t
        else Accept(t, indices, ChunkKey(verdict.appendCount))
  }

  /** The first loop over positions `0 .. n - 1`. */
  function FirstPass(s: seq<Tx>, policy: Policy, n: nat): Tally
    requires n <= |s|
  {
    if n == 0 then Tally({}, 0, map[], []) else Step(s, policy, n - 1, FirstPass(s, policy, n - 1))
  }

  /** The first loop over the whole list. */
  function BigPass(s: seq<Tx>, policy: Policy): Tally {
    FirstPass(s, policy, |s|)
  }

  /** Positions below `n` of ETHEREUMTRANSACTIONs not in `consumed`. */
  function Standalone(s: seq<Tx>, consumed: set<nat>, n: nat): set<nat>
    requires n <= |s|
  {
    set j | 0 <= j < n && s[j].kind == EthereumTransaction && j !in consumed
  }

  ghost function UnionOf(lists: seq<seq<nat>>): set<nat> {
    if lists == [] then {} else UnionOf(lists[..|lists| - 1]) + Elems(lists[|lists| - 1])
  }

  ghost function TotalLength(lists: seq<seq<nat>>): nat {
    if lists == [] then 0 else TotalLength(lists[..|lists| - 1]) + |lists[|lists| - 1]|
  }

  ghost predicate Increasing(xs: seq<nat>) {
    forall k, l :: 0 <= k < l < |xs| ==> xs[k] < xs[l]
  }

  /** One past the last position of the last accepted sequence (0 before any). */
  function Frontier(t: Tally): nat {
    if t.accepted == [] || t.accepted[|t.accepted| - 1] == [] then 0
    else
      var last := t.accepted[|t.accepted| - 1];
      last[|last| - 1] + 1
  }

  /** An accepted list: the collected, validated sequence of a FILECREATE at its head. */
  ghost predicate AcceptedSequence(s: seq<Tx>, policy: Policy, indices: seq<nat>) {
    && indices != []
    && indices[0] < |s|
    && s[indices[0]].kind == FileCreate
    && indices == Collected(s, indices[0], policy)
    && Validate(Pick(s, indices), policy).valid
  }

  ghost predicate AllAccepted(s: seq<Tx>, policy: Policy, lists: seq<seq<nat>>) {
    forall k :: 0 <= k < |lists| ==> AcceptedSequence(s, policy, lists[k])
  }

  /** Each accepted list shares no position with the lists accepted before it. */
  ghost predicate EachDisjoint(lists: seq<seq<nat>>) {
    forall k :: 0 <= k < |lists| ==> Elems(lists[k]) !! UnionOf(lists[..k])
  }

  /** The consumed set, the total and the buckets all account for the accepted lists. */
  ghost predicate Accounted(t: Tally) {
    && t.consumed == UnionOf(t.accepted)
    && |t.consumed| == TotalLength(t.accepted)
    && t.total == |t.accepted|
    && t.total == SumValues(t.big)
  }

  /** Everything consumed lies below the frontier, which lies within the list. */
  ghost predicate Bounded(s: seq<Tx>, t: Tally) {
    && Frontier(t) <= |s|
    && (forall c :: c in t.consumed ==> c < Frontier(t))
  }

  /** Every record from `n` up to the frontier that is no FILEAPPEND/FILEDELETE is consumed. */
  ghost predicate Covered(s: seq<Tx>, n: nat, t: Tally)
    requires Frontier(t) <= |s|
  {
    forall j :: n <= j < Frontier(t) && !IsAppendOrDelete(s[j].kind) ==> j in t.consumed
  }

  /**
   * What holds after the first loop has visited positions below `n`: the consumed set
   * is the union of the accepted lists, each disjoint from the earlier ones, so its size
   * is their total length; everything consumed lies below the frontier, and every record
   * from `n` up to the frontier that is not a FILEAPPEND/FILEDELETE is consumed; the
   * total counts the accepted lists and equals the sum of the buckets.
   */
  ghost predicate PassInvariant(s: seq<Tx>, policy: Policy, n: nat, t: Tally) {
    && n <= |s|
    && AllAccepted(s, policy, t.accepted)
    && EachDisjoint(t.accepted)
    && Accounted(t)
    && Bounded(s, t)
    && Covered(s, n, t)
  }

  lemma {:induction false} IncreasingElems(xs: seq<nat>)
    requires Increasing(xs)
    ensures |Elems(xs)| == |xs|
    decreases |xs|
  {
    if xs != [] {
      var init := xs[..|xs| - 1];
      IncreasingElems(init);
      assert Elems(xs) == Elems(init) + {xs[|xs| - 1]};
      assert xs[|xs| - 1] !in Elems(init);
    }
  }

  /** An unconsumed FILECREATE at `i` lies at or past the frontier. */
  lemma OpenerPastFrontier(s: seq<Tx>, policy: Policy, i: nat, t: Tally)
    requires i < |s| && PassInvariant(s, policy, i, t)
    requires i !in t.consumed && s[i].kind == FileCreate
    ensures Frontier(t) <= i
  {
  }

  lemma AppendKeepsDisjoint(lists: seq<seq<nat>>, indices: seq<nat>)
    requires EachDisjoint(lists)
    requires Elems(indices) !! UnionOf(lists)
    ensures EachDisjoint(lists + [indices])
  {
    var lists' := lists + [indices];
    forall k | 0 <= k < |lists'|
      ensures Elems(lists'[k]) !! UnionOf(lists'[..k])
    {
      if k < |lists| {
        assert lists'[..k] == lists[..k];
      } else {
        assert lists'[..k] == lists;
      }
    }
  }

  lemma AppendKeepsAccepted(s: seq<Tx>, policy: Policy, lists: seq<seq<nat>>, indices: seq<nat>)
    requires AllAccepted(s, policy, lists)
    requires AcceptedSequence(s, policy, indices)
    ensures AllAccepted(s, policy, lists + [indices])
  {
  }

  /** The tally after accepting `indices` with buckets key `key`. */
  function Accept(t: Tally, indices: seq<nat>, key: string): Tally {
    Tally(t.consumed + Elems(indices), t.total + 1, Bump(t.big, key), t.accepted + [indices])
  }

  lemma AcceptKeepsAccounted(t: Tally, indices: seq<nat>, key: string)
    requires Accounted(t) && Increasing(indices)
    requires Elems(indices) !! t.consumed
    ensures Accounted(Accept(t, indices, key))
  {
    var t' := Accept(t, indices, key);
    assert t'.accepted[..|t.accepted|] == t.accepted;
    assert UnionOf(t'.accepted) == t.consumed + Elems(indices);
    IncreasingElems(indices);
    assert TotalLength(t'.accepted) == TotalLength(t.accepted) + |indices|;
    BumpAddsOne(t.big, key);
  }

  lemma AcceptKeepsBounded(s: seq<Tx>, t: Tally, indices: seq<nat>, key: string)
    requires Bounded(s, t) && indices != [] && Increasing(indices)
    requires forall k :: 0 <= k < |indices| ==> Frontier(t) <= indices[k] < |s|
    ensures Bounded(s, Accept(t, indices, key))
    ensures Frontier(Accept(t, indices, key)) == indices[|indices| - 1] + 1
    ensures Elems(indices) !! t.consumed
  {
    var t' := Accept(t, indices, key);
    assert Frontier(t') == indices[|indices| - 1] + 1;
    forall c | c in t'.consumed ensures c < Frontier(t') {
      if c in Elems(indices) {
        var k :| 0 <= k < |indices| && indices[k] == c;
        assert k == |indices| - 1 || indices[k] < indices[|indices| - 1];
      }
    }
  }

  lemma AcceptKeepsCovered(s: seq<Tx>, policy: Policy, i: nat, t: Tally, indices: seq<nat>, key: string)
    requires i < |s| && InRange(s, indices) && indices != []
    requires GapFree(s, s[i], i, policy, indices)
    requires Bounded(s, Accept(t, indices, key))
    requires Frontier(Accept(t, indices, key)) == indices[|indices| - 1] + 1
    ensures Covered(s, i + 1, Accept(t, indices, key))
  {
    var t' := Accept(t, indices, key);
    forall j | i + 1 <= j < Frontier(t') && !IsAppendOrDelete(s[j].kind)
      ensures j in t'.consumed
    {
      assert Keeps(policy, s[i].entity, s[j]);
      assert j in indices;
    }
  }

  /** The accept branch of the first loop keeps the invariant. */
  lemma AcceptKeepsInvariant(s: seq<Tx>, policy: Policy, i: nat, t: Tally, indices: seq<nat>, key: string)
    requires i < |s| && PassInvariant(s, policy, i, t)
    requires i !in t.consumed && s[i].kind == FileCreate
    requires indices == Collected(s, i, policy) && indices != []
    requires Validate(Pick(s, indices), policy).valid
    ensures PassInvariant(s, policy, i + 1, Accept(t, indices, key))
  {
    OpenerPastFrontier(s, policy, i, t);
    CollectedOpener(s, i, policy);
    CollectedComplete(s, i, policy);
    AcceptKeepsBounded(s, t, indices, key);
    AcceptKeepsAccounted(t, indices, key);
    AppendKeepsDisjoint(t.accepted, indices);
    assert AcceptedSequence(s, policy, indices);
    AppendKeepsAccepted(s, policy, t.accepted, indices);
    AcceptKeepsCovered(s, policy, i, t, indices, key);
  }

  lemma StepKeepsInvariant(s: seq<Tx>, policy: Policy, i: nat, t: Tally, next: Tally)
    requires i < |s| && PassInvariant(s, policy, i, t) && next == Step(s, policy, i, t)
    ensures PassInvariant(s, policy, i + 1, next)
  {
    if i !in t.consumed && s[i].kind == FileCreate {
      var indices := Collected(s, i, policy);
      if indices != [] && Validate(Pick(s, indices), policy).valid {
        var key := ChunkKey(Validate(Pick(s, indices), policy).appendCount);
        AcceptKeepsInvariant(s, policy, i, t, indices, key);
        assert Step(s, policy, i, t) == Accept(t, indices, key);
      } else {
        assert Step(s, policy, i, t) == t;
      }
    } else {
      assert Step(s, policy, i, t) == t;
    }
  }

  lemma InitialInvariant(s: seq<Tx>, policy: Policy)
    ensures PassInvariant(s, policy, 0, FirstPass(s, policy, 0))
  {
    var t := FirstPass(s, policy, 0);
    assert t == Tally({}, 0, map[], []);
    assert SumValues(t.big) == 0;
    assert Frontier(t) == 0;
  }

  /** The invariant after the first `n` visits, from the invariant before the last of them. */
  lemma {:induction false} PassStepInvariant(s: seq<Tx>, policy: Policy, n: nat)
    requires 0 < n <= |s|
    ensures PassInvariant(s, policy, n, FirstPass(s, policy, n))
    decreases n, 0
  {
    var i := n - 1;
    FirstPassInvariant(s, policy, i);
    var prev, next := FirstPass(s, policy, i), FirstPass(s, policy, n);
    assert next == Step(s, policy, i, prev);
    StepKeepsInvariant(s, policy, i, prev, next);
  }

  lemma {:induction false} FirstPassInvariant(s: seq<Tx>, policy: Policy, n: nat)
    requires n <= |s|
    ensures PassInvariant(s, policy, n, FirstPass(s, policy, n))
    decreases n, 1
  {
    if n > 0 {
      PassStepInvariant(s, policy, n);
    } else {
      InitialInvariant(s, policy);
    }
  }

  lemma {:induction false} UnionMembers(lists: seq<seq<nat>>, x: nat)
    ensures x in UnionOf(lists) <==> exists k :: 0 <= k < |lists| && x in lists[k]
    decreases |lists|
  {
    if lists != [] {
      var init := lists[..|lists| - 1];
      UnionMembers(init, x);
      if x in UnionOf(init) {
        var k :| 0 <= k < |init| && x in init[k];
        assert x in lists[k];
      }
      if exists k :: 0 <= k < |lists| && x in lists[k] {
        var k :| 0 <= k < |lists| && x in lists[k];
        if k < |init| {
          assert x in init[k];
        }
      }
    }
  }

  /** After the first loop: every accepted list is a validated collected sequence of its
    * FILECREATE, no position belongs to two accepted lists, the consumed positions are
    * exactly the members of the accepted lists, and the total is the bucket sum. */
  lemma BigPassAccounting(s: seq<Tx>, policy: Policy)
    ensures AllAccepted(s, policy, BigPass(s, policy).accepted)
    ensures forall k1, k2, x ::
      (0 <= k1 < k2 < |BigPass(s, policy).accepted| && x in BigPass(s, policy).accepted[k1]) ==>
        x !in BigPass(s, policy).accepted[k2]
    ensures forall x :: x in BigPass(s, policy).consumed <==>
      exists k :: 0 <= k < |BigPass(s, policy).accepted| && x in BigPass(s, policy).accepted[k]
    ensures |BigPass(s, policy).consumed| == TotalLength(BigPass(s, policy).accepted)
    ensures BigPass(s, policy).total == |BigPass(s, policy).accepted|
    ensures BigPass(s, policy).total == SumValues(BigPass(s, policy).big)
  {
    var t := BigPass(s, policy);
    FirstPassInvariant(s, policy, |s|);
    forall k1, k2, x | 0 <= k1 < k2 < |t.accepted| && x in t.accepted[k1]
      ensures x !in t.accepted[k2]
    {
      UnionMembers(t.accepted[..k2], x);
      assert x in t.accepted[..k2][k1];
      assert x in UnionOf(t.accepted[..k2]);
    }
    forall x ensures x in t.consumed <==> exists k :: 0 <= k < |t.accepted| && x in t.accepted[k] {
      UnionMembers(t.accepted, x);
    }
  }

  /** `big_transactions.get(key, 0)`. */
  function BucketCount(big: map<string, nat>, key: string): nat {
    if key in big then big[key] else 0
  }

  /** The key an accepted list is counted under: the chunk key of its FILEAPPEND count. */
  ghost function KeyOf(s: seq<Tx>, indices: seq<nat>): string
    requires InRange(s, indices)
  {
    ChunkKey(CountKind(Pick(s, indices), FileAppend))
  }

  /** The positions in `lists` of the lists counted under `key`. */
  ghost function WithKey(s: seq<Tx>, lists: seq<seq<nat>>, key: string): set<nat> {
    set j | 0 <= j < |lists| && InRange(s, lists[j]) && KeyOf(s, lists[j]) == key
  }

  lemma WithKeyAppend(s: seq<Tx>, lists: seq<seq<nat>>, indices: seq<nat>, key: string)
    requires InRange(s, indices)
    ensures |WithKey(s, lists + [indices], key)| ==
      |WithKey(s, lists, key)| + (if KeyOf(s, indices) == key then 1 else 0)
  {
    var extended := lists + [indices];
    var last: set<nat> := if KeyOf(s, indices) == key then {|lists|} else {};
    forall j | j in WithKey(s, extended, key) && j < |lists| ensures j in WithKey(s, lists, key) {
      assert extended[j] == lists[j];
    }
    forall j | j in WithKey(s, lists, key) ensures j in WithKey(s, extended, key) {
      assert extended[j] == lists[j];
    }
    assert extended[|lists|] == indices;
    assert WithKey(s, extended, key) == WithKey(s, lists, key) + last;
    assert |lists| !in WithKey(s, lists, key);
  }

  /** Every bucket holds the number of accepted lists counted under its key. */
  ghost predicate Bucketed(s: seq<Tx>, t: Tally) {
    forall key :: BucketCount(t.big, key) == |WithKey(s, t.accepted, key)|
  }

  lemma AcceptKeepsBucketed(s: seq<Tx>, t: Tally, indices: seq<nat>)
    requires InRange(s, indices) && Bucketed(s, t)
    ensures Bucketed(s, Accept(t, indices, KeyOf(s, indices)))
  {
    var next := Accept(t, indices, KeyOf(s, indices));
    forall key ensures BucketCount(next.big, key) == |WithKey(s, next.accepted, key)| {
      WithKeyAppend(s, t.accepted, indices, key);
    }
  }

  lemma StepKeepsBucketed(s: seq<Tx>, policy: Policy, i: nat, t: Tally, next: Tally)
    requires i < |s| && Bucketed(s, t) && next == Step(s, policy, i, t)
    ensures Bucketed(s, next)
  {
    var indices := Collected(s, i, policy);
    var verdict := Validate(Pick(s, indices), policy);
    StepOutcome(s, policy, i, t, indices, verdict);
    if next != t {
      assert InRange(s, indices);
      AcceptKeepsBucketed(s, t, indices);
    }
  }

  lemma {:induction false} PassStepBucketed(s: seq<Tx>, policy: Policy, n: nat)
    requires 0 < n <= |s|
    ensures Bucketed(s, FirstPass(s, policy, n))
    decreases n, 0
  {
    var i := n - 1;
    FirstPassBucketed(s, policy, i);
    var prev, next := FirstPass(s, policy, i), FirstPass(s, policy, n);
    assert next == Step(s, policy, i, prev);
    StepKeepsBucketed(s, policy, i, prev, next);
  }

  lemma {:induction false} FirstPassBucketed(s: seq<Tx>, policy: Policy, n: nat)
    requires n <= |s|
    ensures Bucketed(s, FirstPass(s, policy, n))
    decreases n, 1
  {
    if n > 0 {
      PassStepBucketed(s, policy, n);
    }
  }

  /**
   * After the first loop, `big_transactions.get(key, 0)` is the number of accepted
   * sequences whose FILEAPPEND count has that chunk key.
   */
  lemma BigPassBuckets(s: seq<Tx>, policy: Policy, key: string)
    ensures BucketCount(BigPass(s, policy).big, key) == |WithKey(s, BigPass(s, policy).accepted, key)|
  {
    FirstPassBucketed(s, policy, |s|);
  }

  /** The first loop only ever extends its state: accepted lists are appended, never
    * removed, so consumed positions stay consumed and the total never drops. */
  lemma {:induction false} FirstPassGrows(s: seq<Tx>, policy: Policy, m: nat, n: nat)
    requires m <= n <= |s|
    ensures FirstPass(s, policy, m).accepted <= FirstPass(s, policy, n).accepted
    ensures FirstPass(s, policy, m).consumed <= FirstPass(s, policy, n).consumed
    ensures FirstPass(s, policy, m).total <= FirstPass(s, policy, n).total
    decreases n - m
  {
    if m < n {
      FirstPassGrows(s, policy, m, n - 1);
      var prev := FirstPass(s, policy, n - 1);
      assert FirstPass(s, policy, n) == Step(s, policy, n - 1, prev);
    }
  }

  /** One visit either leaves the state alone or accepts the collected sequence of the
    * FILECREATE there, which adds one to the total and strictly enlarges the consumed set. */
  lemma StepAccounting(s: seq<Tx>, policy: Policy, i: nat, t: Tally)
    requires i < |s| && PassInvariant(s, policy, i, t)
    ensures Step(s, policy, i, t) == t ||
      (&& s[i].kind == FileCreate && i !in t.consumed
       && Step(s, policy, i, t).accepted == t.accepted + [Collected(s, i, policy)]
       && Step(s, policy, i, t).total == t.total + 1
       && t.consumed < Step(s, policy, i, t).consumed
       && i in Step(s, policy, i, t).consumed)
  {
    if i !in t.consumed && s[i].kind == FileCreate {
      var indices := Collected(s, i, policy);
      if indices != [] && Validate(Pick(s, indices), policy).valid {
        CollectedOpener(s, i, policy);
        assert i in Elems(indices);
      }
    }
  }

  /** Every ETHEREUMTRANSACTION is counted exactly once: either inside one accepted big
    * transaction, or as a standalone (small) one. */
  lemma EthereumCountedOnce(s: seq<Tx>, policy: Policy, j: nat)
    requires j < |s| && s[j].kind == EthereumTransaction
    ensures j in Standalone(s, BigPass(s, policy).consumed, |s|) <==>
      forall k :: 0 <= k < |BigPass(s, policy).accepted| ==> j !in BigPass(s, policy).accepted[k]
    ensures forall k1, k2 ::
      (0 <= k1 < k2 < |BigPass(s, policy).accepted| && j in BigPass(s, policy).accepted[k1]) ==>
        j !in BigPass(s, policy).accepted[k2]
  {
    BigPassAccounting(s, policy);
  }

  /** The two outcomes of one visit of the first loop. */
  lemma StepOutcome(s: seq<Tx>, policy: Policy, i: nat, t: Tally, indices: seq<nat>, verdict: Verdict)
    requires i < |s| && indices == Collected(s, i, policy)
    requires verdict == Validate(Pick(s, indices), policy)
    ensures (i !in t.consumed && s[i].kind == FileCreate && indices != [] && verdict.valid) ==>
      Step(s, policy, i, t) == Accept(t, indices, ChunkKey(verdict.appendCount))
    ensures !(i !in t.consumed && s[i].kind == FileCreate && indices != [] && verdict.valid) ==>
      Step(s, policy, i, t) == t
  {
  }

  lemma StandaloneStep(s: seq<Tx>, consumed: set<nat>, i: nat)
    requires i < |s|
    ensures i !in Standalone(s, consumed, i)
    ensures s[i].kind == EthereumTransaction && i !in consumed ==>
      Standalone(s, consumed, i + 1) == Standalone(s, consumed, i) + {i} &&
      |Standalone(s, consumed, i + 1)| == |Standalone(s, consumed, i)| + 1
    ensures !(s[i].kind == EthereumTransaction && i !in consumed) ==>
      Standalone(s, consumed, i + 1) == Standalone(s, consumed, i)
  {
    assert i !in Standalone(s, consumed, i);
  }

  /**
   * The body of the first loop of `process_transactions` at position `i`: an unconsumed
   * FILECREATE whose collected sequence validates becomes one big transaction.
   */
  method VisitOpener(s: seq<Tx>, policy: Policy, i: nat, processed: set<nat>, total: nat,
                     big: map<string, nat>, ghost accepted: seq<seq<nat>>)
    returns (processed': set<nat>, total': nat, big': map<string, nat>, ghost accepted': seq<seq<nat>>)
    requires i < |s|
    ensures processed' == Step(s, policy, i, Tally(processed, total, big, accepted)).consumed
    ensures total' == Step(s, policy, i, Tally(processed, total, big, accepted)).total
    ensures big' == Step(s, policy, i, Tally(processed, total, big, accepted)).big
    ensures accepted' == Step(s, policy, i, Tally(processed, total, big, accepted)).accepted
  {
    processed', total', big', accepted' := processed, total, big, accepted;
    ghost var t := Tally(processed, total, big, accepted);
    if i in processed {
      StepSkips(s, policy, i, t);
      return;
    }
    if s[i].kind == FileCreate {
      var found, indices, key := OpenAt(s, policy, i);
      OpenerOutcome(s, policy, i, t, found, indices, key);
      if found {
        total' := total + 1;
        processed' := processed + Elems(indices);
        big' := Bump(big, key);
        accepted' := accepted + [indices];
      }
    } else {
      StepSkips(s, policy, i, t);
    }
  }

  /** A consumed position, or one that is no FILECREATE, leaves the state alone. */
  lemma StepSkips(s: seq<Tx>, policy: Policy, i: nat, t: Tally)
    requires i < |s| && (i in t.consumed || s[i].kind != FileCreate)
    ensures Step(s, policy, i, t) == t
  {
  }

  /** At an unconsumed FILECREATE the visit accepts exactly what `OpenAt` finds. */
  lemma OpenerOutcome(s: seq<Tx>, policy: Policy, i: nat, t: Tally, found: bool, indices: seq<nat>, key: string)
    requires i < |s| && i !in t.consumed && s[i].kind == FileCreate
    requires indices == Collected(s, i, policy)
    requires found <==> indices != [] && Validate(Pick(s, indices), policy).valid
    requires found ==> key == ChunkKey(Validate(Pick(s, indices), policy).appendCount)
    ensures Step(s, policy, i, t) == if found then Accept(t, indices, key) else t
  {
  }

  /**
   * The condition of the first loop at a FILECREATE: collect its sequence and check it.
   * When it validates, `key` is the bucket of its FILEAPPEND count.
   */
  method OpenAt(s: seq<Tx>, policy: Policy, i: nat) returns (found: bool, indices: seq<nat>, key: string)
    requires i < |s|
    ensures indices == Collected(s, i, policy)
    ensures found <==> indices != [] && Validate(Pick(s, indices), policy).valid
    ensures found ==> key == ChunkKey(Validate(Pick(s, indices), policy).appendCount)
  {
    var sequence;
    sequence, indices := CollectSequence(s, i, policy);
    found, key := false, "";
    if sequence != [] {
      var verdict := Validate(sequence, policy);
      if verdict.valid {
        found, key := true, ChunkKey(verdict.appendCount);
      }
    }
  }

  /**
   * `process_transactions` after the sort: the first loop opens big transactions at
   * unconsumed FILECREATEs, the second counts the unconsumed ETHEREUMTRANSACTIONs.
   */
  method CountTransactions(s: seq<Tx>, policy: Policy) returns (total: nat, big: map<string, nat>, small: nat)
    ensures big == BigPass(s, policy).big
    ensures small == |Standalone(s, BigPass(s, policy).consumed, |s|)|
    ensures total == BigPass(s, policy).total + small
    ensures total == SumValues(big) + small
  {
    total, big := 0, map[];
    var processed: set<nat> := {};
    ghost var accepted: seq<seq<nat>> := [];
    for i := 0 to |s|
      invariant FirstPass(s, policy, i) == Tally(processed, total, big, accepted)
    {
      processed, total, big, accepted := VisitOpener(s, policy, i, processed, total, big, accepted);
    }
    FirstPassInvariant(s, policy, |s|);
    assert Accounted(FirstPass(s, policy, |s|));
    processed, total, small := CountStandalone(s, processed, total);
  }

  /**
   * The second loop of `process_transactions`: every ETHEREUMTRANSACTION left unconsumed
   * by the first loop is a small transaction and is consumed in turn.
   */
  method CountStandalone(s: seq<Tx>, consumed: set<nat>, bigTotal: nat)
    returns (processed: set<nat>, total: nat, small: nat)
    ensures processed == consumed + Standalone(s, consumed, |s|)
    ensures small == |Standalone(s, consumed, |s|)|
    ensures total == bigTotal + small
  {
    processed, total, small := consumed, bigTotal, 0;
    assert Standalone(s, consumed, 0) == {};
    for i := 0 to |s|
      invariant processed == consumed + Standalone(s, consumed, i)
      invariant small == |Standalone(s, consumed, i)|
      invariant total == bigTotal + small
    {
      StandaloneStep(s, consumed, i);
      if i !in processed && s[i].kind == EthereumTransaction {
        total := total + 1;
        small := small + 1;
        processed := processed + {i};
        assert processed == consumed + Standalone(s, consumed, i + 1);
      } else {
        assert processed == consumed + Standalone(s, consumed, i + 1);
      }
    }
  }

  /** `process_transactions`: sort the list in place by timestamp, then count. */
  method ProcessTransactions(a: array<Tx>, policy: Policy) returns (total: nat, big: map<string, nat>, small: nat)
    modifies a
    ensures a[..] == SortByTimestamp(old(a[..]))
    ensures big == BigPass(a[..], policy).big
    ensures small == |Standalone(a[..], BigPass(a[..], policy).consumed, a.Length)|
    ensures total == BigPass(a[..], policy).total + small
    ensures total == SumValues(big) + small
  {
    SortInPlace(a);
    total, big, small := CountTransactions(a[..], policy);
  }

  /** A position that is consumed or not a FILECREATE leaves the first pass unchanged. */
  lemma SkipVisit(s: seq<Tx>, policy: Policy, i: nat)
    requires i < |s|
    requires i in FirstPass(s, policy, i).consumed || s[i].kind != FileCreate
    ensures FirstPass(s, policy, i + 1) == FirstPass(s, policy, i)
  {
    assert FirstPass(s, policy, i + 1) == Step(s, policy, i, FirstPass(s, policy, i));
  }

  /** A sample log: one chunked upload of two appends, plus an unrelated Ethereum call. */
  function SampleLog(): seq<Tx> {
    [Tx(0, FileCreate, Some("e1")), Tx(1, FileAppend, Some("e1")), Tx(2, FileAppend, Some("e1")),
     Tx(3, EthereumTransaction, None), Tx(4, FileDelete, Some("e1")), Tx(5, EthereumTransaction, None)]
  }

  lemma SampleCollected()
    ensures Collected(SampleLog(), 0, TimeWindowed(DefaultTimeWindow)) == [0, 1, 2, 3, 4]
  {
    var s, p := SampleLog(), TimeWindowed(DefaultTimeWindow);
    assert Scan(s, s[0], 4, p) == [4];
    assert Scan(s, s[0], 3, p) == [3, 4];
    assert Scan(s, s[0], 1, p) == [1, 2, 3, 4];
  }

  /** The sample's upload, positions 0 to 4, keeps the protocol order. */
  lemma SampleUploadOrder(u: seq<Tx>)
    requires u == SampleLog()[..5]
    ensures CreateBeforeAppend(u) && AppendsBeforeEthereum(u)
    ensures EthereumBeforeDeletes(u) && HasKind(u, FileDelete)
  {
    assert |u| == 5 && u[0].kind == FileCreate && u[1].kind == FileAppend && u[2].kind == FileAppend;
    assert u[3].kind == EthereumTransaction && u[4].kind == FileDelete;
    assert forall d :: 0 <= d < |u| && u[d].kind == FileDelete ==> 3 < d;
  }

  /** All file operations of the sample's upload are on `e1`. */
  lemma SampleUploadEntity(u: seq<Tx>)
    requires u == SampleLog()[..5]
    ensures SingleEntity(u) && EntitiesPresent(u)
  {
    assert forall i :: 0 <= i < |u| && IsFileOp(u[i].kind) ==> u[i].entity == Some("e1");
  }

  lemma SampleUploadAppends(u: seq<Tx>)
    requires u == SampleLog()[..5]
    ensures CountKind(u, FileAppend) == 2
  {
    assert CountKind(u[3..], FileAppend) == 0 by {
      assert u[3..][1..] == u[4..];
      assert CountKind(u[4..], FileAppend) == 0 by { assert u[4..][1..] == []; }
    }
    assert CountKind(u[1..], FileAppend) == 2 by {
      assert u[1..][1..] == u[2..];
      assert u[2..][1..] == u[3..];
    }
  }

  lemma SampleUploadValidates()
    ensures Validate(SampleLog()[..5], TimeWindowed(DefaultTimeWindow)) == Verdict(true, 2)
  {
    var u, p := SampleLog()[..5], TimeWindowed(DefaultTimeWindow);
    SampleUploadOrder(u);
    SampleUploadEntity(u);
    SampleUploadAppends(u);
    ValidateComplete(u, p);
  }

  lemma SampleAccept()
    ensures Accept(Tally({}, 0, map[], []), [0, 1, 2, 3, 4], "2 Chunks") ==
      Tally({0, 1, 2, 3, 4}, 1, map["2 Chunks" := 1], [[0, 1, 2, 3, 4]])
  {
    var xs: seq<nat> := [0, 1, 2, 3, 4];
    assert forall x :: x in Elems(xs) <==> x in xs;
    assert Elems(xs) == {0, 1, 2, 3, 4};
    assert Bump(map[], "2 Chunks") == map["2 Chunks" := 1];
  }

  lemma SampleStandalone()
    ensures Standalone(SampleLog(), {0, 1, 2, 3, 4}, 6) == {5}
  {
    var s := SampleLog();
    assert s[5].kind == EthereumTransaction;
  }

  lemma SamplePick(s: seq<Tx>)
    requires s == SampleLog()
    ensures Pick(s, [0, 1, 2, 3, 4]) == s[..5]
  {
    assert forall k :: 0 <= k < 5 ==> Pick(s, [0, 1, 2, 3, 4])[k] == s[..5][k];
  }

  lemma SampleOpenerStep()
    ensures Step(SampleLog(), TimeWindowed(DefaultTimeWindow), 0, Tally({}, 0, map[], [])) ==
      Accept(Tally({}, 0, map[], []), [0, 1, 2, 3, 4], "2 Chunks")
  {
    var s, p := SampleLog(), TimeWindowed(DefaultTimeWindow);
    SampleCollected();
    SampleUploadValidates();
    SamplePick(s);
    ChunkKeyBoundary();
    StepOutcome(s, p, 0, Tally({}, 0, map[], []), [0, 1, 2, 3, 4], Verdict(true, 2));
  }

  /** The first visit opens the sample's upload and accepts it. */
  lemma SampleFirstVisit(s: seq<Tx>, p: Policy)
    requires s == SampleLog() && p == TimeWindowed(DefaultTimeWindow)
    ensures FirstPass(s, p, 1) == Tally({0, 1, 2, 3, 4}, 1, map["2 Chunks" := 1], [[0, 1, 2, 3, 4]])
  {
    var t0 := Tally({}, 0, map[], []);
    assert FirstPass(s, p, 0) == t0;
    SampleOpenerStep();
    SampleAccept();
  }

  /** The sample yields one big transaction of two chunks and one small one. */
  lemma SampleLogCounts()
    ensures BigPass(SampleLog(), TimeWindowed(DefaultTimeWindow)).big == map["2 Chunks" := 1]
    ensures BigPass(SampleLog(), TimeWindowed(DefaultTimeWindow)).total == 1
    ensures Standalone(SampleLog(), BigPass(SampleLog(), TimeWindowed(DefaultTimeWindow)).consumed, 6) == {5}
    ensures BigPass(SampleLog(), TimeWindowed(DefaultTimeWindow)).total +
      |Standalone(SampleLog(), BigPass(SampleLog(), TimeWindowed(DefaultTimeWindow)).consumed, 6)| == 2
  {
    var s, p := SampleLog(), TimeWindowed(DefaultTimeWindow);
    var t1 := Tally({0, 1, 2, 3, 4}, 1, map["2 Chunks" := 1], [[0, 1, 2, 3, 4]]);
    SampleFirstVisit(s, p);
    SampleStandalone();
    SkipVisit(s, p, 1);
    SkipVisit(s, p, 2);
    SkipVisit(s, p, 3);
    SkipVisit(s, p, 4);
    SkipVisit(s, p, 5);
  }

  /** A log whose Ethereum call arrives 40 seconds after the FILECREATE. */
  function LateLog(): seq<Tx> {
    [Tx(0, FileCreate, Some("e1")), Tx(1, FileAppend, Some("e1")),
     Tx(40, EthereumTransaction, None), Tx(41, FileDelete, Some("e1"))]
  }

  lemma LateLogCollected()
    ensures Collected(LateLog(), 0, TimeWindowed(DefaultTimeWindow)) == [0, 1]
    ensures Collected(LateLog(), 0, EntityOnly) == [0, 1, 2, 3]
  {
    var s := LateLog();
    assert Scan(s, s[0], 2, TimeWindowed(DefaultTimeWindow)) == [];
    assert Scan(s, s[0], 3, EntityOnly) == [3];
    assert Scan(s, s[0], 2, EntityOnly) == [2, 3];
  }

  /** Cut at the window, the late log has no Ethereum call. */
  lemma LateLogWindowedRejects(u: seq<Tx>)
    requires u == LateLog()[..2]
    ensures !Validate(u, TimeWindowed(DefaultTimeWindow)).valid
  {
    assert |u| == 2 && u[0].kind != EthereumTransaction && u[1].kind != EthereumTransaction;
    assert !HasKind(u, EthereumTransaction);
  }

  /** Uncut, the late log keeps the protocol order on one entity id. */
  lemma LateLogAccepted(s: seq<Tx>)
    requires s == LateLog()
    ensures CreateBeforeAppend(s) && AppendsBeforeEthereum(s)
    ensures EthereumBeforeDeletes(s) && HasKind(s, FileDelete)
    ensures SingleEntity(s) && EntitiesPresent(s)
  {
    assert s[0].kind == FileCreate && s[1].kind == FileAppend;
    assert s[2].kind == EthereumTransaction && s[3].kind == FileDelete;
    assert forall d :: 0 <= d < |s| && s[d].kind == FileDelete ==> 2 < d;
    assert forall i :: 0 <= i < |s| && IsFileOp(s[i].kind) ==> s[i].entity == Some("e1");
  }

  lemma LateLogAppends(s: seq<Tx>)
    requires s == LateLog()
    ensures CountKind(s, FileAppend) == 1
  {
    assert s[1..][1..] == s[2..];
    assert s[2..][1..] == s[3..];
    assert s[3..][1..] == [];
  }

  lemma LateLogVerdicts()
    ensures !Validate(LateLog()[..2], TimeWindowed(DefaultTimeWindow)).valid
    ensures Validate(LateLog(), EntityOnly) == Verdict(true, 1)
  {
    var s := LateLog();
    LateLogWindowedRejects(s[..2]);
    LateLogAccepted(s);
    LateLogAppends(s);
    ValidateComplete(s, EntityOnly);
  }

  lemma LateLogPick(s: seq<Tx>)
    requires s == LateLog()
    ensures Pick(s, [0, 1]) == s[..2]
    ensures Pick(s, [0, 1, 2, 3]) == s
  {
    assert forall k :: 0 <= k < 2 ==> Pick(s, [0, 1])[k] == s[..2][k];
    assert forall k :: 0 <= k < 4 ==> Pick(s, [0, 1, 2, 3])[k] == s[k];
  }

  /** With the window, the FILECREATE's collection is rejected and nothing is accepted. */
  lemma LateLogWindowedStep(s: seq<Tx>, p: Policy)
    requires s == LateLog() && p == TimeWindowed(DefaultTimeWindow)
    ensures Step(s, p, 0, Tally({}, 0, map[], [])) == Tally({}, 0, map[], [])
  {
    LateLogCollected();
    LateLogVerdicts();
    LateLogPick(s);
    StepOutcome(s, p, 0, Tally({}, 0, map[], []), [0, 1], Validate(s[..2], p));
  }

  lemma LateLogWindowedStandalone(s: seq<Tx>)
    requires s == LateLog()
    ensures Standalone(s, {}, 4) == {2}
  {
    assert s[2].kind == EthereumTransaction;
    assert forall j :: 0 <= j < 4 && s[j].kind == EthereumTransaction ==> j == 2;
  }

  /** With the 30-second window the late call aborts the collection: no big transaction,
    * and the call counts as a small one. */
  lemma LateLogWindowedCounts(s: seq<Tx>, p: Policy)
    requires s == LateLog() && p == TimeWindowed(DefaultTimeWindow)
    ensures BigPass(s, p).total == 0 && BigPass(s, p).big == map[]
    ensures Standalone(s, BigPass(s, p).consumed, 4) == {2}
  {
    var t0 := Tally({}, 0, map[], []);
    LateLogWindowedStep(s, p);
    assert FirstPass(s, p, 1) == t0;
    SkipVisit(s, p, 1);
    SkipVisit(s, p, 2);
    SkipVisit(s, p, 3);
    LateLogWindowedStandalone(s);
  }

  lemma LateLogAccept()
    ensures Accept(Tally({}, 0, map[], []), [0, 1, 2, 3], "1 Chunks") ==
      Tally({0, 1, 2, 3}, 1, map["1 Chunks" := 1], [[0, 1, 2, 3]])
  {
    var xs: seq<nat> := [0, 1, 2, 3];
    assert forall x :: x in Elems(xs) <==> x in xs;
    assert Elems(xs) == {0, 1, 2, 3};
    assert Bump(map[], "1 Chunks") == map["1 Chunks" := 1];
  }

  lemma LateLogOpenerStep()
    ensures Step(LateLog(), EntityOnly, 0, Tally({}, 0, map[], [])) ==
      Accept(Tally({}, 0, map[], []), [0, 1, 2, 3], "1 Chunks")
  {
    var s := LateLog();
    LateLogCollected();
    LateLogVerdicts();
    LateLogPick(s);
    ChunkKeyBoundary();
    StepOutcome(s, EntityOnly, 0, Tally({}, 0, map[], []), [0, 1, 2, 3], Verdict(true, 1));
  }

  lemma LateLogFirstVisit(s: seq<Tx>)
    requires s == LateLog()
    ensures FirstPass(s, EntityOnly, 1) == Tally({0, 1, 2, 3}, 1, map["1 Chunks" := 1], [[0, 1, 2, 3]])
  {
    assert FirstPass(s, EntityOnly, 0) == Tally({}, 0, map[], []);
    LateLogOpenerStep();
    LateLogAccept();
  }

  lemma LateLogNoStandalone()
    ensures Standalone(LateLog(), {0, 1, 2, 3}, 4) == {}
  {
    var consumed: set<nat> := {0, 1, 2, 3};
    forall j: nat | j < 4 ensures j in consumed {
      assert j == 0 || j == 1 || j == 2 || j == 3;
    }
  }

  /** Without the window the same records form a one-chunk big transaction and no
    * small one is left. */
  lemma LateLogEntityOnlyCounts(s: seq<Tx>)
    requires s == LateLog()
    ensures BigPass(s, EntityOnly).total == 1 && BigPass(s, EntityOnly).big == map["1 Chunks" := 1]
    ensures Standalone(s, BigPass(s, EntityOnly).consumed, 4) == {}
  {
    var t1 := Tally({0, 1, 2, 3}, 1, map["1 Chunks" := 1], [[0, 1, 2, 3]]);
    LateLogFirstVisit(s);
    SkipVisit(s, EntityOnly, 1);
    SkipVisit(s, EntityOnly, 2);
    SkipVisit(s, EntityOnly, 3);
    LateLogNoStandalone();
  }
}
