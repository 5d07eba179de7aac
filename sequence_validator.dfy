/**
 * `is_valid_big_transaction`: decides whether a candidate sequence is one big transaction
 * and reports its number of FILEAPPEND chunks. The entity-only variant also rejects a
 * `None` entity id; the windowed variant only asks for a single entity id.
 */
module SequenceValidator {
  import opened Records

  predicate HasKind(s: seq<Tx>, k: TxKind) {
    exists i :: 0 <= i < |s| && s[i].kind == k
  }

  /** The positions of `s` that hold type `k`. */
  ghost function Positions(s: seq<Tx>, k: TxKind): set<nat> {
    set i | 0 <= i < |s| && s[i].kind == k
  }

  /** Every member of a set of naturals moved up by one. */
  ghost function Shifted(a: set<nat>): set<nat> {
    set x | x in a :: x + 1
  }

  lemma {:induction false} ShiftedSize(a: set<nat>)
    ensures |Shifted(a)| == |a|
    decreases |a|
  {
    if a != {} {
      var x :| x in a;
      ShiftedSize(a - {x});
      forall y | y in Shifted(a) ensures y in Shifted(a - {x}) + {x + 1} {
        var z :| z in a && y == z + 1;
        if z != x { assert z in a - {x}; }
      }
      assert Shifted(a) == Shifted(a - {x}) + {x + 1};
      assert x + 1 !in Shifted(a - {x});
    }
  }

  /** The positions of a non-empty sequence: its head, if it qualifies, and its tail's moved up by one. */
  lemma PositionsShape(s: seq<Tx>, k: TxKind)
    requires s != []
    ensures Positions(s, k) == (if s[0].kind == k then {0} else {}) + Shifted(Positions(s[1..], k))
  {
    var tail := Positions(s[1..], k);
    forall i | i in Positions(s, k) && i > 0 ensures i in Shifted(tail) {
      assert s[1..][i - 1] == s[i];
      assert i - 1 in tail;
    }
    forall i | i in Shifted(tail) ensures i in Positions(s, k) {
      var j :| j in tail && i == j + 1;
      assert s[1..][j] == s[i];
    }
  }

  lemma PositionsSplit(s: seq<Tx>, k: TxKind)
    requires s != []
    ensures |Positions(s, k)| == (if s[0].kind == k then 1 else 0) + |Positions(s[1..], k)|
  {
    var shifted := Shifted(Positions(s[1..], k));
    PositionsShape(s, k);
    ShiftedSize(Positions(s[1..], k));
    assert 0 !in shifted;
  }

  /** `types_in_sequence.count(k)`: the number of positions holding type `k`. */
  function CountKind(s: seq<Tx>, k: TxKind): (n: nat)
    ensures n <= |s|
    ensures n > 0 <==> HasKind(s, k)
    ensures n == |Positions(s, k)|
  {
    if s == [] then 0
    else
      PositionsSplit(s, k);
      (if s[0].kind == k then 1 else 0) + CountKind(s[1..], k)
  }

  /** `types_in_sequence.index(k)`: the first position of type `k`. */
  function FirstIndex(s: seq<Tx>, k: TxKind): (i: nat)
    requires HasKind(s, k)
    ensures i < |s| && s[i].kind == k
    ensures forall j :: 0 <= j < i ==> s[j].kind != k
  {
    if s[0].kind == k then 0
    else
      assert HasKind(s[1..], k) by {
        var i :| 0 <= i < |s| && s[i].kind == k;
        assert s[1..][i - 1].kind == k;
      }
      1 + FirstIndex(s[1..], k)
  }

  /** `max(idx for idx, t in enumerate(types) if t == k)`: the last position of type `k`. */
  function LastIndex(s: seq<Tx>, k: TxKind): (i: nat)
    requires HasKind(s, k)
    ensures i < |s| && s[i].kind == k
    ensures forall j :: i < j < |s| ==> s[j].kind != k
  {
    if s[|s| - 1].kind == k then |s| - 1
    else
      assert HasKind(s[..|s| - 1], k) by {
        var i :| 0 <= i < |s| && s[i].kind == k;
        assert s[..|s| - 1][i].kind == k;
      }
      LastIndex(s[..|s| - 1], k)
  }

  /** The entity ids of the FILECREATE, FILEAPPEND and FILEDELETE records. */
  function EntityIds(s: seq<Tx>): set<EntityId> {
    set i | 0 <= i < |s| && IsFileOp(s[i].kind) :: s[i].entity
  }

  datatype Verdict = Verdict(valid: bool, appendCount: nat)

  /**
   * `is_valid_big_transaction`. The append count is the number of FILEAPPEND records,
   * whatever the verdict.
   */
  function Validate(s: seq<Tx>, policy: Policy): (v: Verdict)
    ensures v.appendCount == CountKind(s, FileAppend)
  {
    var appendCount := CountKind(s, FileAppend);
    if HasKind(s, FileCreate) && appendCount >= 1 && HasKind(s, EthereumTransaction) && HasKind(s, FileDelete) then
      var create := FirstIndex(s, FileCreate);
      var delete := FirstIndex(s, FileDelete);
      var firstEthereum := FirstIndex(s, EthereumTransaction);
      var lastAppend := LastIndex(s, FileAppend);
      if create < lastAppend < firstEthereum < delete then
        var ids := EntityIds(s);
        Verdict(|ids| == 1 && (policy.EntityOnly? ==> None !in ids), appendCount)
      else
        Verdict(false, appendCount)
    else
      Verdict(false, appendCount)
  }

  /**
   * The protocol shape of a big transaction, stated without positions of first and last
   * occurrences: a FILECREATE before some FILEAPPEND; every FILEAPPEND before every
   * ETHEREUMTRANSACTION; an ETHEREUMTRANSACTION before every FILEDELETE, of which there
   * is one at least; and all file operations on one entity id (entity-only: not `None`).
   */
  ghost predicate Accepts(s: seq<Tx>, policy: Policy) {
    && CreateBeforeAppend(s)
    && AppendsBeforeEthereum(s)
    && EthereumBeforeDeletes(s)
    && HasKind(s, FileDelete)
    && SingleEntity(s)
    && (policy.EntityOnly? ==> EntitiesPresent(s))
  }

  ghost predicate CreateBeforeAppend(s: seq<Tx>) {
    exists c, a :: 0 <= c < a < |s| && s[c].kind == FileCreate && s[a].kind == FileAppend
  }

  ghost predicate AppendsBeforeEthereum(s: seq<Tx>) {
    forall a, e :: 0 <= a < |s| && 0 <= e < |s| && s[a].kind == FileAppend && s[e].kind == EthereumTransaction ==> a < e
  }

  ghost predicate EthereumBeforeDeletes(s: seq<Tx>) {
    exists e :: 0 <= e < |s| && s[e].kind == EthereumTransaction &&
      forall d :: 0 <= d < |s| && s[d].kind == FileDelete ==> e < d
  }

  ghost predicate SingleEntity(s: seq<Tx>) {
    forall i, j :: 0 <= i < |s| && 0 <= j < |s| && IsFileOp(s[i].kind) && IsFileOp(s[j].kind) ==>
      s[i].entity == s[j].entity
  }

  ghost predicate EntitiesPresent(s: seq<Tx>) {
    forall i :: 0 <= i < |s| && IsFileOp(s[i].kind) ==> s[i].entity.Some?
  }

  lemma OneElement<T>(ids: set<T>, x: T)
    requires |ids| == 1 && x in ids
    ensures ids == {x}
  {
    var others := ids - {x};
    assert ids == others + {x};
    assert |others| == 0;
  }

  /** The entity check: one id shared by every file operation, given there is one. */
  lemma EntityCheck(s: seq<Tx>, c: nat, policy: Policy)
    requires c < |s| && IsFileOp(s[c].kind)
    ensures (|EntityIds(s)| == 1 && (policy.EntityOnly? ==> None !in EntityIds(s))) <==>
      (SingleEntity(s) && (policy.EntityOnly? ==> EntitiesPresent(s)))
  {
    var ids := EntityIds(s);
    var x := s[c].entity;
    assert x in ids;
    if |ids| == 1 {
      OneElement(ids, x);
      forall i | 0 <= i < |s| && IsFileOp(s[i].kind) ensures s[i].entity == x {
        assert s[i].entity in ids;
      }
    }
    if SingleEntity(s) {
      assert ids == {x};
    }
  }

  /**
   * `is_valid_big_transaction` accepts exactly the sequences of the protocol shape: the
   * required operations present, first FILECREATE < last FILEAPPEND < first
   * ETHEREUMTRANSACTION < first FILEDELETE, and a single entity id.
   */
  lemma ValidateMeansAccepts(s: seq<Tx>, policy: Policy)
    ensures Validate(s, policy).valid <==> Accepts(s, policy)
  {
    ValidateSound(s, policy);
    ValidateComplete(s, policy);
  }

  lemma ValidateSound(s: seq<Tx>, policy: Policy)
    ensures Validate(s, policy).valid ==> Accepts(s, policy)
  {
    if Validate(s, policy).valid {
      ValidateSoundCase(s, policy);
    }
  }

  lemma ValidateSoundCase(s: seq<Tx>, policy: Policy)
    requires Validate(s, policy).valid
    ensures Accepts(s, policy)
  {
    var create := FirstIndex(s, FileCreate);
    var delete := FirstIndex(s, FileDelete);
    var firstEthereum := FirstIndex(s, EthereumTransaction);
    var lastAppend := LastIndex(s, FileAppend);
    assert create < lastAppend < firstEthereum < delete;
    assert forall d :: 0 <= d < |s| && s[d].kind == FileDelete ==> firstEthereum < d;
    EntityCheck(s, create, policy);
  }

  lemma CreateBeforeLastAppend(s: seq<Tx>)
    requires CreateBeforeAppend(s)
    ensures HasKind(s, FileCreate) && HasKind(s, FileAppend)
    ensures FirstIndex(s, FileCreate) < LastIndex(s, FileAppend)
  {
    var c, a :| 0 <= c < a < |s| && s[c].kind == FileCreate && s[a].kind == FileAppend;
    assert HasKind(s, FileCreate) && HasKind(s, FileAppend);
    assert FirstIndex(s, FileCreate) <= c;
    assert a <= LastIndex(s, FileAppend);
  }

  lemma LastAppendBeforeEthereum(s: seq<Tx>)
    requires AppendsBeforeEthereum(s) && HasKind(s, FileAppend) && HasKind(s, EthereumTransaction)
    ensures LastIndex(s, FileAppend) < FirstIndex(s, EthereumTransaction)
  {
    var a, e := LastIndex(s, FileAppend), FirstIndex(s, EthereumTransaction);
    assert s[a].kind == FileAppend && s[e].kind == EthereumTransaction;
  }

  lemma EthereumBeforeFirstDelete(s: seq<Tx>)
    requires EthereumBeforeDeletes(s) && HasKind(s, FileDelete)
    ensures HasKind(s, EthereumTransaction)
    ensures FirstIndex(s, EthereumTransaction) < FirstIndex(s, FileDelete)
  {
    var e :| 0 <= e < |s| && s[e].kind == EthereumTransaction &&
      forall d :: 0 <= d < |s| && s[d].kind == FileDelete ==> e < d;
    assert HasKind(s, EthereumTransaction);
    assert FirstIndex(s, EthereumTransaction) <= e;
    var d := FirstIndex(s, FileDelete);
    assert s[d].kind == FileDelete;
  }

  /** The checks `Validate` makes, stated without quantifiers. */
  lemma ValidateFromChecks(s: seq<Tx>, policy: Policy)
    requires HasKind(s, FileCreate) && HasKind(s, FileAppend)
    requires HasKind(s, EthereumTransaction) && HasKind(s, FileDelete)
    requires FirstIndex(s, FileCreate) < LastIndex(s, FileAppend) < FirstIndex(s, EthereumTransaction)
    requires FirstIndex(s, EthereumTransaction) < FirstIndex(s, FileDelete)
    requires |EntityIds(s)| == 1 && (policy.EntityOnly? ==> None !in EntityIds(s))
    ensures Validate(s, policy).valid
  {
  }

  lemma ValidateComplete(s: seq<Tx>, policy: Policy)
    ensures Accepts(s, policy) ==> Validate(s, policy).valid
  {
    if Accepts(s, policy) {
      CreateBeforeLastAppend(s);
      EthereumBeforeFirstDelete(s);
      LastAppendBeforeEthereum(s);
      EntityCheck(s, FirstIndex(s, FileCreate), policy);
      ValidateFromChecks(s, policy);
    }
  }

  /** A FILEAPPEND after an ETHEREUMTRANSACTION makes the sequence invalid. */
  lemma AppendAfterEthereumRejected(s: seq<Tx>, policy: Policy, e: nat, a: nat)
    requires e < a < |s| && s[e].kind == EthereumTransaction && s[a].kind == FileAppend
    ensures !Validate(s, policy).valid
  {
    ValidateSound(s, policy);
  }

  /** File operations on two different entity ids make the sequence invalid. */
  lemma MixedEntitiesRejected(s: seq<Tx>, policy: Policy, i: nat, j: nat)
    requires i < |s| && j < |s| && IsFileOp(s[i].kind) && IsFileOp(s[j].kind)
    requires s[i].entity != s[j].entity
    ensures !Validate(s, policy).valid
  {
    ValidateSound(s, policy);
  }

  /** Entity-only, a file operation without entity id makes the sequence invalid. */
  lemma MissingEntityRejected(s: seq<Tx>, i: nat)
    requires i < |s| && IsFileOp(s[i].kind) && s[i].entity == None
    ensures !Validate(s, EntityOnly).valid
  {
    ValidateSound(s, EntityOnly);
  }

  /** An upload whose records all lack an entity id. */
  function Anonymous(): seq<Tx> {
    [Tx(0, FileCreate, None), Tx(1, FileAppend, None), Tx(2, EthereumTransaction, None), Tx(3, FileDelete, None)]
  }

  lemma AnonymousShape(s: seq<Tx>)
    requires s == Anonymous()
    ensures CreateBeforeAppend(s) && AppendsBeforeEthereum(s)
    ensures EthereumBeforeDeletes(s) && HasKind(s, FileDelete) && SingleEntity(s)
  {
    assert s[0].kind == FileCreate && s[1].kind == FileAppend;
    assert s[2].kind == EthereumTransaction && s[3].kind == FileDelete;
    assert forall d :: 0 <= d < |s| && s[d].kind == FileDelete ==> 2 < d;
    assert forall i :: 0 <= i < |s| ==> s[i].entity == None;
  }

  /** A staging file without entity id passes the windowed check, but not the entity-only one. */
  lemma AnonymousVerdicts()
    ensures Validate(Anonymous(), TimeWindowed(30)).valid
    ensures !Validate(Anonymous(), EntityOnly).valid
  {
    var s := Anonymous();
    AnonymousShape(s);
    ValidateComplete(s, TimeWindowed(30));
    MissingEntityRejected(s, 0);
  }

  /** The append after the Ethereum call, and the delete on another entity, are rejected. */
  lemma RejectedExamples()
    ensures !Validate([Tx(0, FileCreate, Some("e1")), Tx(1, EthereumTransaction, None),
                       Tx(2, FileAppend, Some("e1")), Tx(3, FileDelete, Some("e1"))], EntityOnly).valid
    ensures !Validate([Tx(0, FileCreate, Some("e1")), Tx(1, FileAppend, Some("e1")),
                       Tx(2, EthereumTransaction, None), Tx(3, FileDelete, Some("e2"))], TimeWindowed(30)).valid
  {
    AppendAfterEthereumRejected([Tx(0, FileCreate, Some("e1")), Tx(1, EthereumTransaction, None),
                                 Tx(2, FileAppend, Some("e1")), Tx(3, FileDelete, Some("e1"))], EntityOnly, 1, 2);
    MixedEntitiesRejected([Tx(0, FileCreate, Some("e1")), Tx(1, FileAppend, Some("e1")),
                           Tx(2, EthereumTransaction, None), Tx(3, FileDelete, Some("e2"))], TimeWindowed(30), 0, 3);
  }
}
