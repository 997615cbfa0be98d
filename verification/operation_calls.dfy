/** The calls on operations (pkg/storage/mongodb/operation.go), with any interference between their database steps. */
module OperationCalls {
  import opened Bytes
  import opened Operation
  import opened Snapshot
  import opened Tokens
  import opened Transaction
  import opened Wrappers

  /** What a call returns: an answer, or an error; an error may name the attempt that stays pending. */
  datatype CallReply = Answered(answer: Answer) | CallError(pending: Option<string>)

  datatype Key = Key(id: string, digest: string)

  /** Nothing is ever taken back. */
  ghost predicate Grows(before: State, after: State) {
    && before.history <= after.history && before.durable <= after.durable
    && forall a :: a in before.minted ==> a in after.minted && after.minted[a] == before.minted[a]
  }

  lemma StepGrows(s: State, a: Action)
    requires Inv(s) && s.history != []
    ensures Grows(s, Step(s, a))
  {
    hide Inv, Claim, Guard, Save, InsertTombstone, FenceAborted, FenceExpired, Commit, NoConflict, MayMint;
    StepKeepsInv(s, a);
    MintsStay(s, a);
  }

  lemma MintsStay(s: State, a: Action)
    requires s.history != []
    ensures s.durable <= Step(s, a).durable
    ensures forall attempt :: attempt in s.minted ==>
      attempt in Step(s, a).minted && Step(s, a).minted[attempt] == s.minted[attempt]
  {
    hide Guard, Save, InsertClaim, Reclaim, InsertTombstone, FenceAborted, FenceExpired, Commit, NoConflict;
  }

  /** The row an operation had at some time. */
  ghost predicate Had(s: State, id: string, at: nat, row: Row) {
    at < |s.history| && Get(s.history[at].rows, id) == Some(row)
  }

  /** An attempt of the digest was once left aborted. */
  ghost predicate OnceAborted(s: State, key: Key, attempt: string) {
    exists at: nat, row: Row :: Had(s, key.id, at, row) && row.state == Aborted && row.digest == key.digest && row.attempt == attempt
  }

  ghost predicate IsDurable(s: State, id: string, receipt: Receipt) {
    exists i :: 0 <= i < |s.durable| && s.durable[i].id == id && s.durable[i].receipt == receipt
  }

  ghost predicate NeverDurable(s: State, id: string, attempt: string) {
    forall i :: 0 <= i < |s.durable| && s.durable[i].id == id ==> s.durable[i].attempt != attempt
  }

  /** An attempt that was once aborted has no durable body, and as long as the state is sound it never gets one. */
  lemma OnceAbortedIsNeverDurable(s: State, key: Key, attempt: string)
    requires Inv(s) && OnceAborted(s, key, attempt)
    ensures NeverDurable(s, key.id, attempt)
  {
    hide ActiveInv, DbInv, AttemptInv;
    var at: nat, row: Row :| Had(s, key.id, at, row) && row.state == Aborted && row.attempt == attempt;
    assert LaterAt(s.history[at], Current(s), key.id);
    forall i | 0 <= i < |s.durable| && s.durable[i].id == key.id
      ensures s.durable[i].attempt != attempt
    {
      assert Committing(Get(Current(s).rows, key.id), s.durable[i]);
      if s.durable[i].attempt == attempt {
        AttemptHasOneToken(s, key.id, at, |s.history| - 1);
      }
    }
  }

  lemma AbortedIsTruthful(s: State, key: Key, attempt: Option<string>, a: string)
    requires Inv(s) && OnceAborted(s, key, a) && (attempt.Some? ==> a == attempt.value)
    ensures Truthful(s, key, attempt, AbortedAnswer)
  {
    hide Inv, OnceAborted;
    OnceAbortedIsNeverDurable(s, key, a);
  }

  lemma OnceAbortedStays(s: State, s': State, key: Key, attempt: string)
    requires OnceAborted(s, key, attempt) && Grows(s, s')
    ensures OnceAborted(s', key, attempt)
  {
    var at: nat, row: Row :| Had(s, key.id, at, row) && row.state == Aborted && row.digest == key.digest && row.attempt == attempt;
    assert Had(s', key.id, at, row);
  }

  // What single steps do

  /** A claim made the row: the first one of the operation, or the successor of an aborted row of the digest. */
  ghost predicate NewClaim(s: State, key: Key, at: nat, row: Row, attempt: string) {
    && Had(s, key.id, at, row) && row.state == Pending && row.attempt == attempt && row.digest == key.digest
    && at > 0
    && match Get(s.history[at - 1].rows, key.id)
       case None => row.token == FirstToken
       case Some(before) => before.state == Aborted && before.digest == key.digest && row.token == before.token + 1
  }

  lemma AppliedClaim(s: State, key: Key, attempt: string, owner: string, lease: nat)
    requires s.history != [] && attempt in s.minted && s.minted[attempt].id == key.id && s.minted[attempt].digest == key.digest
    requires Next(s, Action.ClaimOperation(attempt, owner, lease)).Some?
    ensures var s' := Step(s, Action.ClaimOperation(attempt, owner, lease));
      var row := RowOf(s', key.id);
      row.Some? && NewClaim(s', key, |s'.history| - 1, row.value, attempt)
  {
    var s' := Step(s, Action.ClaimOperation(attempt, owner, lease));
    assert s'.history[|s'.history| - 2] == Current(s);
  }

  lemma AppliedMint(s: State, key: Key, attempt: string, at: nat)
    requires s.history != [] && Next(s, MintAttempt(attempt, key.id, key.digest, at)).Some?
    ensures var s' := Step(s, MintAttempt(attempt, key.id, key.digest, at));
      attempt in s'.minted && s'.minted[attempt].id == key.id && s'.minted[attempt].digest == key.digest
  {
  }

  lemma AppliedTombstone(s: State, key: Key, attempt: string, owner: string, lease: nat)
    requires s.history != [] && Next(s, TombstoneOperation(key.id, key.digest, attempt, owner, lease)).Some?
    ensures RowOf(Step(s, TombstoneOperation(key.id, key.digest, attempt, owner, lease)), key.id).Some?
  {
  }

  ghost predicate Runs(s: State, txn: nat, id: string, doc: Row, saved: Option<Receipt>) {
    txn in s.active && s.active[txn].id == id && s.active[txn].doc == doc && s.active[txn].saved == saved
  }

  lemma AppliedBegin(s: State, txn: nat, id: string, at: nat, snapshot: nat)
    requires s.history != [] && Next(s, BeginBody(txn, id, at, snapshot)).Some?
    ensures ReadAt(s, id, at).Some? && Runs(Step(s, BeginBody(txn, id, at, snapshot)), txn, id, ReadAt(s, id, at).value, None)
  {
  }

  lemma AppliedGuard(s: State, txn: nat, id: string, doc: Row)
    requires s.history != [] && Runs(s, txn, id, doc, None) && Next(s, GuardIn(txn)).Some?
    ensures Runs(Step(s, GuardIn(txn)), txn, id, doc, None)
  {
  }

  lemma AppliedSave(s: State, txn: nat, id: string, doc: Row, receipt: Receipt)
    requires s.history != [] && Runs(s, txn, id, doc, None) && Next(s, SaveIn(txn, receipt)).Some?
    ensures Runs(Step(s, SaveIn(txn, receipt)), txn, id, doc, Some(receipt)) && ReceiptAccepted(id, doc.digest, receipt)
  {
  }

  lemma AppliedCommit(s: State, txn: nat, id: string, doc: Row, receipt: Receipt)
    requires s.history != [] && Runs(s, txn, id, doc, Some(receipt)) && Next(s, CommitBody(txn)).Some?
    ensures IsDurable(Step(s, CommitBody(txn)), id, receipt)
  {
    var s' := Step(s, CommitBody(txn));
    assert s'.durable[|s.durable|].id == id;
  }

  /** What each answer means, whatever happened in between and whatever happens later. */
  ghost predicate Truthful(s: State, key: Key, attempt: Option<string>, answer: Answer) {
    match answer
    case CommittedAnswer(receipt) =>
      IsDurable(s, key.id, receipt) && ReceiptAccepted(key.id, key.digest, receipt)
    case AbortedAnswer =>
      exists a :: OnceAborted(s, key, a) && NeverDurable(s, key.id, a) && (attempt.Some? ==> a == attempt.value)
    case PendingAnswer(a) =>
      exists at: nat, row: Row :: Had(s, key.id, at, row) && row.attempt == a && row.digest == key.digest
    case DigestMismatch =>
      forall i :: 0 <= i < |s.durable| && s.durable[i].id == key.id ==> s.durable[i].receipt.semanticDigest != key.digest
    case Invalid => false
  }

  lemma CommittedRowIsDurable(s: State, id: string, at: nat, row: Row)
    requires Inv(s) && Had(s, id, at, row) && row.state == Committed
    ensures row.receipt.Some? && IsDurable(s, id, row.receipt.value) && ReceiptAccepted(id, row.digest, row.receipt.value)
  {
    hide ActiveInv, AttemptInv;
    assert DbInv(s.history[at]) && LaterAt(s.history[at], Current(s), id);
    assert HasDurable(s, id);
    var i :| 0 <= i < |s.durable| && s.durable[i].id == id;
    assert Committing(Get(Current(s).rows, id), s.durable[i]);
  }

  lemma OtherDigestMeansOtherReceipts(s: State, key: Key, at: nat, row: Row)
    requires Inv(s) && Had(s, key.id, at, row) && row.digest != key.digest
    ensures Truthful(s, key, None, DigestMismatch)
  {
    hide ActiveInv, AttemptInv;
    assert DbInv(Current(s)) && LaterAt(s.history[at], Current(s), key.id);
    forall i | 0 <= i < |s.durable| && s.durable[i].id == key.id
      ensures s.durable[i].receipt.semanticDigest != key.digest
    {
      assert Committing(Get(Current(s).rows, key.id), s.durable[i]);
    }
  }

  /** Answers read off a row that the operation had at some time are true. */
  lemma ResultIsTruthful(s: State, key: Key, attempt: Option<string>, at: nat, row: Row)
    requires Inv(s) && Had(s, key.id, at, row)
    requires attempt.Some? && row.digest == key.digest ==> row.attempt == attempt.value
    ensures Truthful(s, key, attempt, OperationResult(row, key.digest))
  {
    hide Inv, NeverDurable;
    if row.digest != key.digest {
      OtherDigestMeansOtherReceipts(s, key, at, row);
    } else {
      match row.state
      case Pending =>
      case Aborted =>
        assert OnceAborted(s, key, row.attempt);
        OnceAbortedIsNeverDurable(s, key, row.attempt);
      case Committed => CommittedRowIsDurable(s, key.id, at, row);
    }
  }

  lemma RowIsThere(s: State, id: string, at: nat)
    requires Inv(s) && at < |s.history| && id in s.history[at].rows
    ensures id in Current(s).rows && Follows(s.history[at].rows[id], Current(s).rows[id])
  {
    assert LaterAt(s.history[at], Current(s), id);
  }

  // What a call is due when nothing disturbs it

  /** Why a call may not see its own steps alone: others acted, a reply was lost, or a transaction read an older state. */
  datatype Disturbance = OthersActed | ReplyLost | OlderSnapshot

  /** The attempt was never made or named before. */
  predicate FreshAttempt(s: State, attempt: string) {
    attempt !in s.minted && attempt !in s.named
  }

  /** A call may claim the operation: it has no row, or an aborted one of the digest that does not hold the last token. */
  predicate Claimable(s: State, key: Key) {
    match RowOf(s, key.id)
    case None => true
    case Some(row) => row.state == Aborted && row.digest == key.digest && row.token + 1 < TwoTo64
  }

  /** The row of a claim: the first token on an absent row, the next one on an aborted row. */
  function ClaimRow(before: State, key: Key, attempt: string, owner: string, lease: nat): Row {
    var token := match RowOf(before, key.id) case None => 1 case Some(row) => row.token + 1;
    Row(key.digest, Pending, attempt, owner, token, before.now + lease, None)
  }

  ghost predicate BodyMayCommit(key: Key, leaseUntil: nat, now: nat, receipt: Option<Receipt>) {
    now < leaseUntil && receipt.Some? && receipt.value.operationID == key.id && receipt.value.semanticDigest == key.digest
  }

  /** The operation is claimed, its body runs, and the receipt is committed; a body that cannot commit is fenced. */
  ghost predicate ClaimRuns(before: State, after: State, key: Key, attempt: string, owner: string, lease: nat,
                            receipt: Option<Receipt>, r: CallReply) {
    var claim := ClaimRow(before, key, attempt, owner, lease);
    if BodyMayCommit(key, before.now + lease, before.now, receipt)
    then
      && r == Answered(CommittedAnswer(receipt.value)) && IsDurable(after, key.id, receipt.value)
      && RowOf(after, key.id) == Some(claim.(state := Committed, receipt := receipt))
    else r == CallError(None) && RowOf(after, key.id) == Some(claim.(state := Aborted))
  }

  /** What ExecuteOperation must answer, and the row it must leave. */
  ghost predicate Executes(before: State, after: State, key: Key, attempt: string, owner: string, lease: nat,
                           receipt: Option<Receipt>, r: CallReply) {
    var row := RowOf(before, key.id);
    if Claimable(before, key) && FreshAttempt(before, attempt)
    then ClaimRuns(before, after, key, attempt, owner, lease, receipt, r)
    else
      && after == before
      && if Claimable(before, key) then r == CallError(None)
         else if row.value.digest != key.digest then r == Answered(DigestMismatch)
         else
           match row.value.state
           case Pending => r == Answered(PendingAnswer(row.value.attempt))
           case Aborted => r == CallError(Some(row.value.attempt))
           case Committed => row.value.receipt.Some? && r == Answered(CommittedAnswer(row.value.receipt.value))
  }

  /** What ReconcileOperation must answer, and the row it must leave. */
  ghost predicate Reconciles(before: State, after: State, key: Key, attempt: Option<string>, owner: string, lease: nat, r: CallReply) {
    match RowOf(before, key.id)
    case None =>
      if attempt.None? then after == before && r == CallError(None)
      else
        && r == Answered(AbortedAnswer)
        && RowOf(after, key.id) == Some(Row(key.digest, Aborted, attempt.value, owner, 1, before.now + lease, None))
    case Some(row) =>
      if row.digest == key.digest && (attempt.None? || attempt.value == row.attempt) && row.state == Pending && row.leaseUntil <= before.now
      then r == Answered(AbortedAnswer) && RowOf(after, key.id) == Some(row.(state := Aborted))
      else
        && after == before
        && if row.digest != key.digest then r == Answered(DigestMismatch)
           else if attempt.Some? && attempt.value != row.attempt then r == CallError(None)
           else
             match row.state
             case Pending => r == Answered(PendingAnswer(row.attempt))
             case Aborted => r == Answered(AbortedAnswer)
             case Committed => row.receipt.Some? && r == Answered(CommittedAnswer(row.receipt.value))
  }

  /** An aborted row of the digest that holds the last token. */
  ghost predicate Exhausted(s: State, key: Key, attempt: string) {
    exists at: nat, row: Row ::
      Had(s, key.id, at, row) && row.state == Aborted && row.digest == key.digest && row.attempt == attempt && row.token + 1 >= TwoTo64
  }

  /** A transaction that has only begun, on the current state. */
  ghost predicate JustBegun(s: State, txn: nat, id: string, doc: Row)
    requires s.history != []
  {
    txn in s.active && s.active[txn] == Body(id, doc, Begin(Current(s)), false, None)
  }

  /** A transaction that has written its row as it found it on the current state. */
  ghost predicate JustGuarded(s: State, txn: nat, id: string, doc: Row)
    requires s.history != []
  {
    txn in s.active && s.active[txn] == Body(id, doc, Put(Begin(Current(s)), id, doc), true, None)
  }

  /** What the statements of a body must do when nothing disturbs them. */
  ghost predicate BodyWritten(before: State, after: State, txn: nat, key: Key, doc: Row, receipt: Option<Receipt>, written: bool)
    requires after.history != []
  {
    && after.history == before.history && after.now == before.now
    && (written <==> BodyMayCommit(key, doc.leaseUntil, before.now, receipt))
    && (written ==> ReceiptWritten(after, txn, key.id, doc, receipt.value))
  }

  /** A transaction that has written its receipt over the current state. */
  ghost predicate ReceiptWritten(s: State, txn: nat, id: string, doc: Row, receipt: Receipt)
    requires s.history != []
  {
    && txn in s.active
    && var b := s.active[txn];
       && b.id == id && b.doc == doc && b.saved == Some(receipt)
       && b.txn.base == Current(s) && b.txn.writes == {id}
       && Get(b.txn.view, id) == Some(doc.(state := Committed, receipt := Some(receipt)))
  }

  lemma GuardAlone(s: State, txn: nat, key: Key, doc: Row)
    requires s.history != [] && JustBegun(s, txn, key.id, doc) && IsPending(s, key, doc)
    ensures Next(s, GuardIn(txn)).Some? <==> s.now < doc.leaseUntil
    ensures var s' := Step(s, GuardIn(txn));
      s'.history == s.history && s'.now == s.now &&
      (s.now < doc.leaseUntil ==>
         JustGuarded(s', txn, key.id, doc))
  {
  }

  lemma SaveAlone(s: State, txn: nat, key: Key, doc: Row, receipt: Receipt)
    requires s.history != [] && JustGuarded(s, txn, key.id, doc) && IsPending(s, key, doc)
    ensures Next(s, SaveIn(txn, receipt)).Some? <==> BodyMayCommit(key, doc.leaseUntil, s.now, Some(receipt))
    ensures var s' := Step(s, SaveIn(txn, receipt));
      s'.history == s.history && s'.now == s.now &&
      (BodyMayCommit(key, doc.leaseUntil, s.now, Some(receipt)) ==> ReceiptWritten(s', txn, key.id, doc, receipt))
  {
  }

  lemma CommitAlone(s: State, txn: nat, key: Key, doc: Row, receipt: Receipt)
    requires s.history != [] && ReceiptWritten(s, txn, key.id, doc, receipt)
    ensures Next(s, CommitBody(txn)).Some?
    ensures RowOf(Step(s, CommitBody(txn)), key.id) == Some(doc.(state := Committed, receipt := Some(receipt)))
  {
    hide Commit;
    CommitAt(Current(s), s.active[txn].txn, key.id);
  }

  lemma BeginAlone(s: State, txn: nat, id: string, at: nat, doc: Row)
    requires s.history != [] && txn !in s.active && Had(s, id, at, doc)
    ensures Next(s, BeginBody(txn, id, at, |s.history| - 1)).Some?
    ensures var s' := Step(s, BeginBody(txn, id, at, |s.history| - 1));
      s'.history == s.history && s'.now == s.now && JustBegun(s', txn, id, doc)
  {
  }

  lemma ClaimAlone(s: State, key: Key, attempt: string, owner: string, lease: nat)
    requires s.history != [] && Claimable(s, key)
    requires attempt in s.minted && s.minted[attempt] == Mint(key.id, key.digest, RowOf(s, key.id))
    ensures Next(s, Action.ClaimOperation(attempt, owner, lease)).Some?
    ensures var s' := Step(s, Action.ClaimOperation(attempt, owner, lease));
      s'.now == s.now && RowOf(s', key.id) == Some(ClaimRow(s, key, attempt, owner, lease))
  {
  }

  lemma MintAlone(s: State, key: Key, attempt: string)
    requires s.history != [] && Claimable(s, key)
    ensures var a := MintAttempt(attempt, key.id, key.digest, |s.history| - 1);
      && (Next(s, a).Some? <==> FreshAttempt(s, attempt))
      && (FreshAttempt(s, attempt) ==>
            Step(s, a) == s.(minted := s.minted[attempt := Mint(key.id, key.digest, RowOf(s, key.id))]))
      && (!FreshAttempt(s, attempt) ==> Step(s, a) == s)
  {
  }

  lemma {:induction false} Bounded(keys: set<nat>) returns (bound: nat)
    ensures forall k :: k in keys ==> k < bound
  {
    bound := 0;
    if keys != {} {
      var k :| k in keys;
      var others := Bounded(keys - {k});
      bound := if others <= k then k + 1 else others;
      assert forall x :: x in keys ==> x == k || x in keys - {k};
    }
  }

  /** The database, as all callers share it; `disturbances` is the record of what calls did not do themselves. */
  class Database {
    var s: State
    ghost var disturbances: seq<Disturbance>

    ghost predicate Valid()
      reads this
    {
      Inv(s) && s.history != []
    }

    constructor ()
      ensures Valid()
    {
      s := Initial;
      disturbances := [];
      new;
      InitialIsSound();
    }

    /** Other callers may do anything that keeps the state sound; callers of this method know no more. */
    method Others()
      requires Valid()
      modifies this
      ensures Valid() && Grows(old(s), s)
      ensures old(disturbances) <= disturbances && (disturbances == old(disturbances) ==> s == old(s))
    {
    }

    /** Whether the reply of a step gets lost. */
    method Lost() returns (lost: bool)
      modifies this`disturbances
      ensures disturbances == if lost then old(disturbances) + [ReplyLost] else old(disturbances)
    {
      lost := *;
      if lost {
        disturbances := disturbances + [ReplyLost];
      }
    }

    method Perform(a: Action) returns (applied: bool)
      requires Valid()
      modifies this`s
      ensures Valid() && s == Step(old(s), a) && Grows(old(s), s)
      ensures applied <==> Next(old(s), a).Some?
    {
      StepKeepsInv(s, a);
      StepGrows(s, a);
      applied := Next(s, a).Some?;
      s := Step(s, a);
    }

    method FindOne(id: string) returns (row: Option<Row>, at: nat)
      requires Valid()
      modifies this
      ensures Valid() && Grows(old(s), s)
      ensures old(disturbances) <= disturbances && (disturbances == old(disturbances) ==> s == old(s))
      ensures at + 1 == |s.history| && row == RowOf(s, id) == ReadAt(s, id, at)
      ensures row.Some? ==> Had(s, id, at, row.value)
      ensures RowOf(old(s), id).Some? ==> row.Some? && Follows(RowOf(old(s), id).value, row.value)
      ensures forall k :: 0 <= k < |old(s).history| && id in old(s).history[k].rows ==> row.Some?
    {
      Others();
      row := RowOf(s, id);
      at := |s.history| - 1;
      forall k | 0 <= k < |old(s).history| && id in old(s).history[k].rows
        ensures row.Some? && Follows(old(s).history[k].rows[id], row.value)
      {
        RowIsThere(s, id, k);
      }
    }

    /**
     * A claim, the row that was found instead, or an error; an error after the write leaves the attempt pending, and
     * one before it names the attempt of an aborted row that has no next token. Undisturbed, a claimable operation is
     * claimed by a fresh attempt.
     */
    method ClaimOperation(key: Key, attempt: string, owner: string, lease: nat)
      returns (doc: Option<Row>, at: nat, claimed: bool, pending: Option<string>)
      requires Valid()
      modifies this
      ensures Valid() && Grows(old(s), s) && old(disturbances) <= disturbances
      ensures doc.Some? ==> Had(s, key.id, at, doc.value)
      ensures claimed ==> doc.Some? && NewClaim(s, key, at, doc.value, attempt)
      ensures pending.Some? ==> doc.None? && (pending.value == attempt || Exhausted(s, key, pending.value))
      ensures RowOf(old(s), key.id).Some? && RowOf(old(s), key.id).value.digest != key.digest ==>
        doc.Some? && !claimed && doc.value.digest != key.digest
      ensures RowOf(old(s), key.id).Some? && RowOf(old(s), key.id).value.state == Committed ==>
        doc == RowOf(old(s), key.id) && !claimed
      ensures disturbances == old(disturbances) ==> ClaimsDue(old(s), s, key, attempt, owner, lease, doc, claimed, pending)
    {
      hide Inv, Step, Next, ClaimRow;
      ghost var before := s;
      doc, at := FindOne(key.id);
      claimed, pending := false, None;
      if doc.Some? && (doc.value.digest != key.digest || doc.value.state != Aborted) {
        return;
      }
      if doc.Some? && TokenAfter(doc.value.token).None? {
        assert Exhausted(s, key, doc.value.attempt);
        return None, at, false, Some(doc.value.attempt);
      }
      ghost var unminted := s;
      MintAlone(s, key, attempt);
      var minted := Perform(MintAttempt(attempt, key.id, key.digest, at));
      if !minted {
        return None, at, false, None;
      }
      AppliedMint(unminted, key, attempt, at);
      ClaimRowStays(unminted, s, key, attempt, owner, lease);
      doc, at, claimed, pending := TryClaim(key, attempt, owner, lease);
    }

    /** Writes the claim of an attempt that was made for this operation. */
    method TryClaim(key: Key, attempt: string, owner: string, lease: nat)
      returns (doc: Option<Row>, at: nat, claimed: bool, pending: Option<string>)
      requires Valid()
      requires attempt in s.minted && s.minted[attempt].id == key.id && s.minted[attempt].digest == key.digest
      modifies this
      ensures Valid() && Grows(old(s), s) && old(disturbances) <= disturbances
      ensures doc.Some? ==> Had(s, key.id, at, doc.value)
      ensures claimed ==> doc.Some? && NewClaim(s, key, at, doc.value, attempt)
      ensures pending.Some? ==> doc.None? && pending.value == attempt
      ensures disturbances == old(disturbances) && Claimable(old(s), key) && old(s).minted[attempt].existing == RowOf(old(s), key.id) ==>
        claimed && doc == Some(ClaimRow(old(s), key, attempt, owner, lease)) == RowOf(s, key.id) && s.now == old(s).now
    {
      hide Inv, Step, Next, Claimable, ClaimRow;
      Others();
      ghost var before := s;
      if Claimable(s, key) && s.minted[attempt].existing == RowOf(s, key.id) {
        ClaimAlone(s, key, attempt, owner, lease);
      }
      var applied := Perform(Action.ClaimOperation(attempt, owner, lease));
      var lost := Lost();
      if lost {
        return None, 0, false, Some(attempt);
      }
      if applied {
        AppliedClaim(before, key, attempt, owner, lease);
        return RowOf(s, key.id), |s.history| - 1, true, None;
      }
      doc, at := FindOne(key.id);
      claimed, pending := false, None;
    }

    /** Others may do anything but touch the caller's open transaction, which lives in its own session. */
    method OthersBut(txn: nat)
      requires Valid() && txn in s.active
      modifies this
      ensures Valid() && Grows(old(s), s)
      ensures old(disturbances) <= disturbances && (disturbances == old(disturbances) ==> s == old(s))
      ensures txn in s.active && s.active[txn] == old(s).active[txn]
    {
    }

    /**
     * Runs the body in one transaction on any snapshot, with others writing between its statements; its receipt is
     * durable when the commit is acknowledged. Undisturbed on a pending row, it commits exactly when the lease runs and
     * the receipt is the operation's.
     */
    method RunBody(key: Key, doc: Row, at: nat, receipt: Option<Receipt>) returns (outcome: Outcome)
      requires Valid() && Had(s, key.id, at, doc)
      modifies this
      ensures Valid() && Grows(old(s), s) && old(disturbances) <= disturbances
      ensures outcome == TransactionCommitted ==>
        receipt.Some? && IsDurable(s, key.id, receipt.value) && ReceiptAccepted(key.id, doc.digest, receipt.value)
      ensures disturbances == old(disturbances) && IsPending(old(s), key, doc) ==> BodyDue(old(s), s, key, doc, receipt, outcome)
    {
      hide Inv, Step, Next, Runs, IsDurable, JustBegun, ReceiptWritten, ReceiptAccepted;
      var txn, begun := BeginTransaction(key.id, doc, at);
      if !begun {
        return TransactionAborted;
      }
      var written := WriteBody(txn, key, doc, receipt);
      if !written {
        AbortLeavesRows(s, txn);
        var aborted := Perform(AbortBody(txn));
        return TransactionAborted;
      }
      outcome := CommitTransaction(txn, key, doc, receipt.value);
    }

    /** The commit, after others had their turn; it fails when somebody wrote the row meanwhile. */
    method CommitTransaction(txn: nat, key: Key, doc: Row, receipt: Receipt) returns (outcome: Outcome)
      requires Valid() && Runs(s, txn, key.id, doc, Some(receipt))
      modifies this
      ensures Valid() && Grows(old(s), s) && old(disturbances) <= disturbances
      ensures outcome == TransactionCommitted ==> IsDurable(s, key.id, receipt)
      ensures disturbances == old(disturbances) && ReceiptWritten(old(s), txn, key.id, doc, receipt) ==>
        outcome == TransactionCommitted && RowOf(s, key.id) == Some(doc.(state := Committed, receipt := Some(receipt)))
    {
      hide Inv, Step, Next, Runs, IsDurable, ReceiptWritten;
      OthersMeanwhile(txn, key.id, doc, Some(receipt));
      ghost var before := s;
      if ReceiptWritten(s, txn, key.id, doc, receipt) {
        CommitAlone(s, txn, key, doc, receipt);
      }
      var committed := Perform(CommitBody(txn));
      var lost := Lost();
      if lost {
        return TransactionPending;
      }
      if !committed {
        var aborted := Perform(AbortBody(txn));
        return TransactionAborted;
      }
      AppliedCommit(before, txn, key.id, doc, receipt);
      return TransactionCommitted;
    }

    /** A new session begins on the current state or an older one. */
    method BeginTransaction(id: string, doc: Row, at: nat) returns (txn: nat, begun: bool)
      requires Valid() && Had(s, id, at, doc)
      modifies this
      ensures Valid() && Grows(old(s), s) && old(disturbances) <= disturbances
      ensures begun ==> Runs(s, txn, id, doc, None)
      ensures disturbances == old(disturbances) ==>
        begun && s.history == old(s).history && s.now == old(s).now && JustBegun(s, txn, id, doc)
    {
      hide Inv, Step, Next, Runs, JustBegun;
      Others();
      ghost var bound := Bounded(s.active.Keys);
      assert bound !in s.active;
      txn :| txn !in s.active;
      assert 0 < |s.history|;
      var snapshot: nat :| snapshot < |s.history|;
      if snapshot + 1 != |s.history| {
        disturbances := disturbances + [OlderSnapshot];
      }
      ghost var idle := s;
      BeginAlone(s, txn, id, at, doc);
      begun := Perform(BeginBody(txn, id, at, snapshot));
      if begun {
        AppliedBegin(idle, txn, id, at, snapshot);
      }
    }

    /** The guard and then the body's receipt, each after others had their turn; without a receipt the body failed. */
    method WriteBody(txn: nat, key: Key, doc: Row, receipt: Option<Receipt>) returns (written: bool)
      requires Valid() && Runs(s, txn, key.id, doc, None)
      modifies this
      ensures Valid() && Grows(old(s), s) && old(disturbances) <= disturbances
      ensures written ==>
        receipt.Some? && Runs(s, txn, key.id, doc, receipt) && ReceiptAccepted(key.id, doc.digest, receipt.value)
      ensures disturbances == old(disturbances) && IsPending(old(s), key, doc) && JustBegun(old(s), txn, key.id, doc) ==>
        BodyWritten(old(s), s, txn, key, doc, receipt, written)
    {
      hide Inv, Step, Next, Runs, JustBegun, JustGuarded, ReceiptWritten, ReceiptAccepted;
      written := GuardBody(txn, key, doc);
      if !written || receipt.None? {
        return false;
      }
      written := SaveBody(txn, key, doc, receipt.value);
    }

    method GuardBody(txn: nat, key: Key, doc: Row) returns (guarded: bool)
      requires Valid() && Runs(s, txn, key.id, doc, None)
      modifies this
      ensures Valid() && Grows(old(s), s) && old(disturbances) <= disturbances
      ensures guarded ==> Runs(s, txn, key.id, doc, None)
      ensures disturbances == old(disturbances) && IsPending(old(s), key, doc) && JustBegun(old(s), txn, key.id, doc) ==>
        && s.history == old(s).history && s.now == old(s).now
        && (guarded <==> s.now < doc.leaseUntil) && (guarded ==> JustGuarded(s, txn, key.id, doc))
    {
      hide Inv, Step, Next, Runs, JustBegun, JustGuarded;
      OthersMeanwhile(txn, key.id, doc, None);
      ghost var started := s;
      if IsPending(s, key, doc) && JustBegun(s, txn, key.id, doc) {
        GuardAlone(s, txn, key, doc);
      }
      guarded := Perform(GuardIn(txn));
      if guarded {
        AppliedGuard(started, txn, key.id, doc);
      }
    }

    method SaveBody(txn: nat, key: Key, doc: Row, receipt: Receipt) returns (saved: bool)
      requires Valid() && Runs(s, txn, key.id, doc, None)
      modifies this
      ensures Valid() && Grows(old(s), s) && old(disturbances) <= disturbances
      ensures saved ==> Runs(s, txn, key.id, doc, Some(receipt)) && ReceiptAccepted(key.id, doc.digest, receipt)
      ensures disturbances == old(disturbances) && IsPending(old(s), key, doc) && JustGuarded(old(s), txn, key.id, doc) ==>
        BodyWritten(old(s), s, txn, key, doc, Some(receipt), saved)
    {
      hide Inv, Step, Next, Runs, JustGuarded, ReceiptWritten, ReceiptAccepted;
      OthersMeanwhile(txn, key.id, doc, None);
      ghost var ready := s;
      if IsPending(s, key, doc) && JustGuarded(s, txn, key.id, doc) {
        SaveAlone(s, txn, key, doc, receipt);
      }
      saved := Perform(SaveIn(txn, receipt));
      if saved {
        AppliedSave(ready, txn, key.id, doc, receipt);
      }
    }

    method OthersMeanwhile(txn: nat, id: string, doc: Row, saved: Option<Receipt>)
      requires Valid() && Runs(s, txn, id, doc, saved)
      modifies this
      ensures Valid() && Grows(old(s), s) && Runs(s, txn, id, doc, saved)
      ensures txn in s.active
      ensures old(disturbances) <= disturbances && (disturbances == old(disturbances) ==> s == old(s))
    {
      hide Inv;
      OthersBut(txn);
    }

    /** After a proven abort the attempt is fenced; if somebody else was faster, the row tells what happened. */
    method FenceAbortedOperation(key: Key, doc: Row, at: nat) returns (r: CallReply)
      requires Valid() && Had(s, key.id, at, doc) && doc.digest == key.digest
      modifies this
      ensures Valid() && Grows(old(s), s) && old(disturbances) <= disturbances
      ensures r.Answered? ==> Truthful(s, key, None, r.answer)
      ensures r == CallError(None) ==> exists a :: OnceAborted(s, key, a)
      ensures disturbances == old(disturbances) && RowOf(old(s), key.id) == Some(doc) && doc.state == Pending ==>
        r == CallError(None) && RowOf(s, key.id) == Some(doc.(state := Aborted))
    {
      hide Inv, Step, Next, Truthful, OperationResult;
      Others();
      ghost var before := s;
      if RowOf(s, key.id) == Some(doc) && doc.state == Pending {
        FenceAlone(s, key, doc, at);
      }
      var fenced := Perform(Action.FenceAbortedOperation(key.id, at));
      var lost := Lost();
      if lost {
        return CallError(Some(doc.attempt));
      }
      if fenced {
        FencedRow(before, key, doc, at);
        return CallError(None);
      }
      var current, now := FindOne(key.id);
      if current.None? {
        return CallError(Some(doc.attempt));
      }
      ResultIsTruthful(s, key, None, now, current.value);
      var result := OperationResult(current.value, key.digest);
      match result {
        case PendingAnswer(_) => return Answered(result);
        case AbortedAnswer =>
          AbortedOnce(s, key);
          return CallError(None);
        case CommittedAnswer(_) => return Answered(result);
        case DigestMismatch => return Answered(result);
        case Invalid => return CallError(Some(doc.attempt));
      }
    }

    method UnclaimedOperationResult(key: Key, row: Row, at: nat) returns (r: CallReply)
      requires Valid() && Had(s, key.id, at, row)
      ensures r.Answered? ==> Truthful(s, key, None, r.answer)
      ensures r.Answered? ==> r.answer != AbortedAnswer
      ensures RowAnswers(row, key, r)
    {
      RowsAreValid(s, key.id, at, row);
      if row.state == Aborted && row.digest == key.digest {
        return CallError(None);
      }
      ResultIsTruthful(s, key, None, at, row);
      return Answered(OperationResult(row, key.digest));
    }

    /**
     * Every answer is true, a committed one backed by a durable body; a call that ran no body answers for the row. A row
     * of another digest, and a committed one, is answered for whatever happens; a call that nothing disturbs claims, runs
     * and commits, or answers, exactly as the row it starts from demands.
     */
    method ExecuteOperation(key: Key, attempt: string, owner: string, lease: nat, receipt: Option<Receipt>) returns (r: CallReply)
      requires Valid()
      modifies this
      ensures Valid() && Grows(old(s), s) && old(disturbances) <= disturbances
      ensures r.Answered? ==> Truthful(s, key, None, r.answer)
      ensures FinalAnswer(RowOf(old(s), key.id), key, None, r)
      ensures disturbances == old(disturbances) ==> Executes(old(s), s, key, attempt, owner, lease, receipt, r)
    {
      hide Inv, IsDurable, Truthful;
      ghost var before := s;
      var doc, at, claimed, pending := ClaimOperation(key, attempt, owner, lease);
      if doc.None? {
        return CallError(pending);
      }
      if !claimed {
        r := UnclaimedOperationResult(key, doc.value, at);
        return;
      }
      var outcome := RunBody(key, doc.value, at, receipt);
      match outcome {
        case TransactionCommitted =>
          CommittedIsTruthful(s, key, receipt.value);
          return Answered(CommittedAnswer(receipt.value));
        case TransactionPending => return CallError(Some(doc.value.attempt));
        case TransactionAborted => r := FenceAbortedOperation(key, doc.value, at);
      }
    }

    /** The row, or a tombstone that the caller's attempt is now aborted under. */
    method LoadOrTombstone(key: Key, attempt: Option<string>, owner: string, lease: nat) returns (doc: Option<Row>, at: nat)
      requires Valid()
      modifies this
      ensures Valid() && Grows(old(s), s) && old(disturbances) <= disturbances
      ensures doc.Some? ==> Had(s, key.id, at, doc.value)
      ensures RowOf(old(s), key.id).Some? ==> doc.Some? && Follows(RowOf(old(s), key.id).value, doc.value)
      ensures disturbances == old(disturbances) ==> doc == RowOf(s, key.id) && at + 1 == |s.history|
      ensures disturbances == old(disturbances) && (RowOf(old(s), key.id).Some? || attempt.None?) ==> s == old(s)
      ensures disturbances == old(disturbances) && RowOf(old(s), key.id).None? && attempt.Some? ==>
        doc == Some(Row(key.digest, Aborted, attempt.value, owner, 1, old(s).now + lease, None))
    {
      hide Inv, Step, Next;
      doc, at := FindOne(key.id);
      if doc.Some? || attempt.None? {
        return;
      }
      Others();
      ghost var before := s;
      TombstoneAlone(s, key, attempt.value, owner, lease);
      var inserted := Perform(TombstoneOperation(key.id, key.digest, attempt.value, owner, lease));
      var lost := Lost();
      if lost {
        return None, at;
      }
      if inserted {
        AppliedTombstone(before, key, attempt.value, owner, lease);
        return RowOf(s, key.id), |s.history| - 1;
      }
      doc, at := FindOne(key.id);
    }

    /**
     * An aborted answer names an attempt that has no durable body and never gets one; it is the caller's own attempt
     * when the caller gave one. A committed answer carries the receipt of the durable body. A call that nothing disturbs
     * answers as the row it starts from demands, and fences exactly what has expired.
     */
    method ReconcileOperation(key: Key, attempt: Option<string>, owner: string, lease: nat) returns (r: CallReply)
      requires Valid()
      modifies this
      ensures Valid() && Grows(old(s), s) && old(disturbances) <= disturbances
      ensures r.Answered? ==> Truthful(s, key, attempt, r.answer)
      ensures FinalAnswer(RowOf(old(s), key.id), key, attempt, r)
      ensures disturbances == old(disturbances) ==> Reconciles(old(s), s, key, attempt, owner, lease, r)
    {
      hide Inv, Step, Next, Truthful, OperationResult;
      var found, at := LoadOrTombstone(key, attempt, owner, lease);
      if found.None? {
        return CallError(attempt);
      }
      var doc := found.value;
      RowsAreValid(s, key.id, at, doc);
      ResultMeans(doc, key);
      if doc.digest != key.digest {
        ResultIsTruthful(s, key, attempt, at, doc);
        return Answered(OperationResult(doc, key.digest));
      }
      if attempt.Some? && attempt.value != doc.attempt {
        return CallError(None);
      }
      if doc.state != Pending {
        ResultIsTruthful(s, key, attempt, at, doc);
        return Answered(OperationResult(doc, key.digest));
      }
      r := FenceExpiredPendingOperation(key, attempt, doc, at);
    }

    /** Fences a pending row whose lease has expired; otherwise answers for the row that is there then. */
    method FenceExpiredPendingOperation(key: Key, attempt: Option<string>, doc: Row, at: nat) returns (r: CallReply)
      requires Valid() && Had(s, key.id, at, doc) && doc.digest == key.digest && doc.state == Pending
      requires attempt.Some? ==> attempt.value == doc.attempt
      modifies this
      ensures Valid() && Grows(old(s), s) && old(disturbances) <= disturbances
      ensures r.Answered? ==> Truthful(s, key, attempt, r.answer)
      ensures disturbances == old(disturbances) && RowOf(old(s), key.id) == Some(doc) ==>
        if doc.leaseUntil <= old(s).now
        then r == Answered(AbortedAnswer) && RowOf(s, key.id) == Some(doc.(state := Aborted))
        else r == Answered(PendingAnswer(doc.attempt)) && s == old(s)
    {
      hide Inv, Step, Next, Truthful, OperationResult;
      Others();
      ghost var before := s;
      if RowOf(s, key.id) == Some(doc) {
        ExpireAlone(s, key, doc, at);
      }
      var fenced := Perform(FenceExpiredOperation(key.id, at));
      var lost := Lost();
      if lost {
        return CallError(Some(doc.attempt));
      }
      if fenced {
        ExpiredRow(before, key, doc, at);
        AbortedIsTruthful(s, key, attempt, doc.attempt);
        return Answered(AbortedAnswer);
      }
      var current, now := FindOne(key.id);
      if current.None? {
        return CallError(Some(doc.attempt));
      }
      if attempt.Some? && attempt.value != current.value.attempt {
        return CallError(None);
      }
      RowsAreValid(s, key.id, now, current.value);
      ResultMeans(current.value, key);
      ResultIsTruthful(s, key, attempt, now, current.value);
      return Answered(OperationResult(current.value, key.digest));
    }
  }

  /** What a claim must give when nothing disturbs it. */
  ghost predicate ClaimsDue(before: State, after: State, key: Key, attempt: string, owner: string, lease: nat,
                            doc: Option<Row>, claimed: bool, pending: Option<string>) {
    var row := RowOf(before, key.id);
    if Claimable(before, key) && FreshAttempt(before, attempt)
    then
      && claimed && pending.None? && after.now == before.now
      && doc == Some(ClaimRow(before, key, attempt, owner, lease)) == RowOf(after, key.id)
    else
      && after == before && !claimed
      && if Claimable(before, key) then doc.None? && pending.None?
         else if row.value.digest != key.digest || row.value.state != Aborted then doc == row && pending.None?
         else doc.None? && pending == Some(row.value.attempt)
  }

  /** A row of another digest, or a committed one of the caller's attempt, determines the answer whatever happens. */
  ghost predicate FinalAnswer(row: Option<Row>, key: Key, attempt: Option<string>, r: CallReply) {
    row.Some? ==>
      && (row.value.digest != key.digest ==> r == Answered(DigestMismatch))
      && (row.value.digest == key.digest && row.value.state == Committed && (attempt.None? || attempt.value == row.value.attempt) ==>
            row.value.receipt.Some? && r == Answered(CommittedAnswer(row.value.receipt.value)))
  }

  /** The row of the operation is this pending one of the digest. */
  ghost predicate IsPending(s: State, key: Key, doc: Row) {
    doc.digest == key.digest && doc.state == Pending && RowOf(s, key.id) == Some(doc)
  }

  /** What a body must do when nothing disturbs it. */
  ghost predicate BodyDue(before: State, after: State, key: Key, doc: Row, receipt: Option<Receipt>, outcome: Outcome) {
    if BodyMayCommit(key, doc.leaseUntil, before.now, receipt)
    then outcome == TransactionCommitted && RowOf(after, key.id) == Some(doc.(state := Committed, receipt := receipt))
    else outcome == TransactionAborted && RowOf(after, key.id) == Some(doc)
  }

  /** The answer for a row that was found. */
  ghost predicate RowAnswers(row: Row, key: Key, r: CallReply) {
    if row.digest != key.digest then r == Answered(DigestMismatch)
    else
      match row.state
      case Pending => r == Answered(PendingAnswer(row.attempt))
      case Aborted => r == CallError(None)
      case Committed => row.receipt.Some? && r == Answered(CommittedAnswer(row.receipt.value))
  }

  lemma RowsAreValid(s: State, id: string, at: nat, row: Row)
    requires Inv(s) && Had(s, id, at, row)
    ensures row.state == Committed ==> row.receipt.Some?
  {
    assert DbInv(s.history[at]);
  }

  lemma AbortedOnce(s: State, key: Key)
    requires Truthful(s, key, None, AbortedAnswer)
    ensures exists a :: OnceAborted(s, key, a)
  {
  }

  /** What is told from a row, case by case. */
  lemma ResultMeans(row: Row, key: Key)
    requires row.state == Committed ==> row.receipt.Some?
    ensures var result := OperationResult(row, key.digest);
      if row.digest != key.digest then result == DigestMismatch
      else
        match row.state
        case Pending => result == PendingAnswer(row.attempt)
        case Aborted => result == AbortedAnswer
        case Committed => result == CommittedAnswer(row.receipt.value)
  {
  }

  lemma CommittedIsTruthful(s: State, key: Key, receipt: Receipt)
    requires IsDurable(s, key.id, receipt) && ReceiptAccepted(key.id, key.digest, receipt)
    ensures Truthful(s, key, None, CommittedAnswer(receipt))
  {
  }

  /** An attempt made for an operation does not change what a claim of it finds. */
  lemma ClaimRowStays(before: State, after: State, key: Key, attempt: string, owner: string, lease: nat)
    requires after.history == before.history && after.now == before.now
    ensures Claimable(after, key) <==> Claimable(before, key)
    ensures Claimable(before, key) ==>
      ClaimRow(after, key, attempt, owner, lease) == ClaimRow(before, key, attempt, owner, lease)
  {
  }

  lemma AbortLeavesRows(s: State, txn: nat)
    requires s.history != []
    ensures Step(s, AbortBody(txn)).history == s.history
  {
  }

  lemma FenceAlone(s: State, key: Key, doc: Row, at: nat)
    requires s.history != [] && Had(s, key.id, at, doc) && RowOf(s, key.id) == Some(doc) && doc.state == Pending
    ensures Next(s, Action.FenceAbortedOperation(key.id, at)).Some?
    ensures RowOf(Step(s, Action.FenceAbortedOperation(key.id, at)), key.id) == Some(doc.(state := Aborted))
  {
  }

  lemma ExpireAlone(s: State, key: Key, doc: Row, at: nat)
    requires s.history != [] && Had(s, key.id, at, doc) && RowOf(s, key.id) == Some(doc) && doc.state == Pending
    ensures Next(s, FenceExpiredOperation(key.id, at)).Some? <==> doc.leaseUntil <= s.now
    ensures var s' := Step(s, FenceExpiredOperation(key.id, at));
      if doc.leaseUntil <= s.now then RowOf(s', key.id) == Some(doc.(state := Aborted)) else s' == s
  {
  }

  lemma TombstoneAlone(s: State, key: Key, attempt: string, owner: string, lease: nat)
    requires s.history != []
    ensures var a := TombstoneOperation(key.id, key.digest, attempt, owner, lease);
      && (Next(s, a).Some? <==> RowOf(s, key.id).None?)
      && (RowOf(s, key.id).None? ==>
            RowOf(Step(s, a), key.id) == Some(Row(key.digest, Aborted, attempt, owner, 1, s.now + lease, None)))
  {
  }

  lemma FencedRow(s: State, key: Key, doc: Row, at: nat)
    requires s.history != [] && Had(s, key.id, at, doc) && doc.digest == key.digest
    requires Next(s, Action.FenceAbortedOperation(key.id, at)).Some?
    ensures OnceAborted(Step(s, Action.FenceAbortedOperation(key.id, at)), key, doc.attempt)
  {
    var s' := Step(s, Action.FenceAbortedOperation(key.id, at));
    assert Had(s', key.id, |s.history|, RowOf(s', key.id).value);
  }

  lemma ExpiredRow(s: State, key: Key, doc: Row, at: nat)
    requires s.history != [] && Had(s, key.id, at, doc) && doc.digest == key.digest
    requires Next(s, FenceExpiredOperation(key.id, at)).Some?
    ensures OnceAborted(Step(s, FenceExpiredOperation(key.id, at)), key, doc.attempt)
  {
    var s' := Step(s, FenceExpiredOperation(key.id, at));
    assert Had(s', key.id, |s.history|, RowOf(s', key.id).value);
  }
}
