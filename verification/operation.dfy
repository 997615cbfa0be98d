/** Operation rows (pkg/storage/mongodb/operation.go) raced over by claimers, bodies, fences and tombstones. */
module Operation {
  import opened Bytes
  import opened Snapshot
  import opened Tokens
  import opened Wrappers

  datatype OperationState = Pending | Committed | Aborted

  datatype Receipt = Receipt(operationID: string, semanticDigest: string, steak: string)

  datatype Row = Row(digest: string, state: OperationState, attempt: string, owner: string, token: nat,
                     leaseUntil: nat, receipt: Option<Receipt>)

  type Rows = map<string, Row>

  // The update of each conditional write: the filter that must match, then the row that replaces it

  /** operationPredicate: the row is still the pending one that the caller holds. */
  predicate StillPending(row: Option<Row>, doc: Row) {
    && row.Some? && row.value.state == Pending
    && row.value.digest == doc.digest && row.value.attempt == doc.attempt
    && row.value.owner == doc.owner && row.value.token == doc.token
  }

  function InsertClaim(row: Option<Row>, digest: string, attempt: string, owner: string, leaseUntil: nat): Option<Row> {
    if row.None? then Some(Row(digest, Pending, attempt, owner, FirstToken, leaseUntil, None)) else None
  }

  function Reclaim(row: Option<Row>, existing: Row, digest: string, attempt: string, owner: string, leaseUntil: nat): Option<Row> {
    match TokenAfter(existing.token)
    case None => None
    case Some(token) =>
      if row.Some? && row.value.state == Aborted && row.value.attempt == existing.attempt &&
         row.value.token == existing.token && row.value.digest == digest
      then Some(Row(digest, Pending, attempt, owner, token, leaseUntil, None)) else None
  }

  function FenceAborted(row: Option<Row>, doc: Row): Option<Row> {
    if StillPending(row, doc) then Some(row.value.(state := Aborted)) else None
  }

  function FenceExpired(row: Option<Row>, doc: Row, now: nat): Option<Row> {
    if StillPending(row, doc) && row.value.leaseUntil <= now then Some(row.value.(state := Aborted)) else None
  }

  function InsertTombstone(row: Option<Row>, digest: string, attempt: string, owner: string, leaseUntil: nat): Option<Row> {
    if row.None? then Some(Row(digest, Aborted, attempt, owner, FirstToken, leaseUntil, None)) else None
  }

  predicate ReceiptAccepted(id: string, digest: string, receipt: Receipt) {
    receipt.operationID == id && receipt.semanticDigest == digest
  }

  // What a caller is told from a row

  datatype Answer = DigestMismatch | PendingAnswer(attempt: string) | AbortedAnswer | CommittedAnswer(receipt: Receipt) | Invalid

  function OperationResult(row: Row, digest: string): Answer {
    if row.digest != digest then DigestMismatch
    else
      match row.state
      case Pending => PendingAnswer(row.attempt)
      case Aborted => AbortedAnswer
      case Committed => if row.receipt.Some? then CommittedAnswer(row.receipt.value) else Invalid
  }

  // Steps of all callers together

  /** A fresh attempt id, made by a claimer that found no row or the aborted row `existing`. */
  datatype Mint = Mint(id: string, digest: string, existing: Option<Row>)

  /** A body transaction works on one operation; `saved` is the receipt it wrote. */
  datatype Body = Body(id: string, doc: Row, txn: Txn<string, Row>, guarded: bool, saved: Option<Receipt>)

  /** A body whose effects and receipt became durable. */
  datatype Durable = Durable(id: string, attempt: string, receipt: Receipt)

  /** `history` holds every state the database has had, the current one last. */
  datatype State = State(now: nat, history: seq<Db<string, Row>>, minted: map<string, Mint>, named: set<string>,
                         active: map<nat, Body>, durable: seq<Durable>)

  /** Callers may crash, wait for ever, act on rows they read long ago, and never learn a reply. */
  datatype Action =
    | Tick(elapsed: nat)
    | MintAttempt(attempt: string, id: string, digest: string, readAt: nat)
    | ClaimOperation(attempt: string, owner: string, lease: nat)
    | BeginBody(txn: nat, id: string, readAt: nat, snapshot: nat)
    | GuardIn(txn: nat)
    | SaveIn(txn: nat, receipt: Receipt)
    | CommitBody(txn: nat)
    | AbortBody(txn: nat)
    | FenceAbortedOperation(id: string, readAt: nat)
    | FenceExpiredOperation(id: string, readAt: nat)
    | TombstoneOperation(id: string, digest: string, attempt: string, owner: string, lease: nat)

  const Initial: State := State(0, [Empty()], map[], {}, map[], [])

  function Current(s: State): Db<string, Row>
    requires s.history != []
  {
    s.history[|s.history| - 1]
  }

  function Update(s: State, id: string, row: Option<Row>): Option<State>
    requires s.history != []
  {
    match row
    case None => None
    case Some(r) => Some(s.(history := s.history + [Write(Current(s), id, r)]))
  }

  /** The row of an operation in some state the database has had. */
  function ReadAt(s: State, id: string, readAt: nat): Option<Row> {
    if readAt < |s.history| then Get(s.history[readAt].rows, id) else None
  }

  function Claim(s: State, m: Mint, attempt: string, owner: string, lease: nat): Option<State>
    requires s.history != []
  {
    var row := Get(Current(s).rows, m.id);
    match m.existing
    case None => Update(s, m.id, InsertClaim(row, m.digest, attempt, owner, s.now + lease))
    case Some(existing) => Update(s, m.id, Reclaim(row, existing, m.digest, attempt, owner, s.now + lease))
  }

  function Guard(b: Body, now: nat): Option<Body> {
    var row := Get(b.txn.view, b.id);
    if StillPending(row, b.doc) && row.value.leaseUntil > now
    then Some(b.(txn := Put(b.txn, b.id, row.value), guarded := true)) else None
  }

  function Save(b: Body, receipt: Receipt, now: nat): Option<Body> {
    var row := Get(b.txn.view, b.id);
    if b.guarded && StillPending(row, b.doc) && row.value.leaseUntil > now && ReceiptAccepted(b.id, b.doc.digest, receipt)
    then
      var saved := row.value.(state := Committed, receipt := Some(receipt));
      Some(b.(txn := Put(b.txn, b.id, saved), saved := Some(receipt)))
    else None
  }

  function Continue(s: State, txn: nat, b: Option<Body>): Option<State> {
    match b
    case None => None
    case Some(body) => Some(s.(active := s.active[txn := body]))
  }

  predicate MayMint(s: State, attempt: string, digest: string, existing: Option<Row>) {
    && attempt !in s.minted && attempt !in s.named
    && (existing.Some? ==> existing.value.state == Aborted && existing.value.digest == digest)
  }

  /** The state after an action, or None when its filter does not match. */
  function Next(s: State, a: Action): Option<State>
    requires s.history != []
  {
    var rows := Current(s).rows;
    match a
    case Tick(elapsed) => Some(s.(now := s.now + elapsed))
    case MintAttempt(attempt, id, digest, readAt) =>
      if readAt < |s.history| && MayMint(s, attempt, digest, ReadAt(s, id, readAt))
      then Some(s.(minted := s.minted[attempt := Mint(id, digest, ReadAt(s, id, readAt))])) else None
    case ClaimOperation(attempt, owner, lease) =>
      if attempt in s.minted then Claim(s, s.minted[attempt], attempt, owner, lease) else None
    case BeginBody(txn, id, readAt, snapshot) =>
      if txn in s.active || snapshot >= |s.history| || ReadAt(s, id, readAt).None? then None
      else Some(s.(active := s.active[txn := Body(id, ReadAt(s, id, readAt).value, Begin(s.history[snapshot]), false, None)]))
    case GuardIn(txn) => if txn in s.active then Continue(s, txn, Guard(s.active[txn], s.now)) else None
    case SaveIn(txn, receipt) => if txn in s.active then Continue(s, txn, Save(s.active[txn], receipt, s.now)) else None
    case CommitBody(txn) =>
      if txn in s.active && s.active[txn].saved.Some? && NoConflict(Current(s), s.active[txn].txn)
      then
        var b := s.active[txn];
        Some(s.(history := s.history + [Commit(Current(s), b.txn)], active := s.active - {txn},
                durable := s.durable + [Durable(b.id, b.doc.attempt, b.saved.value)]))
      else None
    case AbortBody(txn) => Some(s.(active := s.active - {txn}))
    case FenceAbortedOperation(id, readAt) =>
      var doc := ReadAt(s, id, readAt);
      if doc.None? then None else Update(s, id, FenceAborted(Get(rows, id), doc.value))
    case FenceExpiredOperation(id, readAt) =>
      var doc := ReadAt(s, id, readAt);
      if doc.None? then None else Update(s, id, FenceExpired(Get(rows, id), doc.value, s.now))
    case TombstoneOperation(id, digest, attempt, owner, lease) =>
      Update(s.(named := s.named + {attempt}), id, InsertTombstone(Get(rows, id), digest, attempt, owner, s.now + lease))
  }

  function Step(s: State, a: Action): State
    requires s.history != []
  {
    match Next(s, a)
    case None => s
    case Some(s') => s'
  }

  ghost predicate StepAt(states: seq<State>, actions: seq<Action>, i: nat)
    requires i < |actions| && |states| == |actions| + 1
  {
    states[i].history != [] && states[i + 1] == Step(states[i], actions[i])
  }

  /** A run from the initial state; an action that does not apply changes nothing. */
  ghost predicate Execution(states: seq<State>, actions: seq<Action>) {
    && |states| == |actions| + 1 && states[0] == Initial
    && forall i :: 0 <= i < |actions| ==> StepAt(states, actions, i)
  }

  // What every step keeps

  /** A committed row is final. An aborted row stays so until a claim raises the token and changes the attempt. */
  predicate Follows(before: Row, after: Row) {
    && after.digest == before.digest
    && before.token <= after.token
    && (before.state == Committed ==> after == before)
    && (before.token == after.token ==>
          && after.attempt == before.attempt && after.owner == before.owner
          && (before.state == Aborted ==> after.state == Aborted))
  }

  predicate RowValid(id: string, row: Row) {
    if row.state == Committed then row.receipt.Some? && ReceiptAccepted(id, row.digest, row.receipt.value)
    else row.receipt.None?
  }

  ghost predicate DbInv(db: Db<string, Row>) {
    forall id :: id in db.rows ==> RowValid(id, db.rows[id])
  }

  ghost predicate LaterAt(before: Db<string, Row>, after: Db<string, Row>, id: string) {
    && Version(before, id) <= Version(after, id)
    && (Version(before, id) == Version(after, id) ==> Get(before.rows, id) == Get(after.rows, id))
    && (id in before.rows ==> id in after.rows && Follows(before.rows[id], after.rows[id]))
  }

  ghost predicate Later(before: Db<string, Row>, after: Db<string, Row>) {
    forall id :: LaterAt(before, after, id)
  }

  ghost predicate HistoryInv(history: seq<Db<string, Row>>) {
    && history != []
    && (forall i :: 0 <= i < |history| ==> DbInv(history[i]))
    && (forall i :: 0 <= i < |history| ==> Later(history[i], history[|history| - 1]))
  }

  ghost predicate WrittenRow(b: Body) {
    && b.id in b.txn.base.rows && b.id in b.txn.view
    && StillPending(Some(b.txn.base.rows[b.id]), b.doc)
    && b.txn.view[b.id] ==
       (if b.saved.Some? then b.txn.base.rows[b.id].(state := Committed, receipt := b.saved) else b.txn.base.rows[b.id])
    && (b.saved.Some? ==> ReceiptAccepted(b.id, b.doc.digest, b.saved.value))
  }

  /** A body writes its operation row before anything else, and only that row. */
  ghost predicate BodyInv(b: Body) {
    && b.txn.writes == (if b.guarded then {b.id} else {})
    && (forall k :: k !in b.txn.writes ==> Get(b.txn.view, k) == Get(b.txn.base.rows, k))
    && (b.saved.Some? ==> b.guarded)
    && (b.guarded ==> WrittenRow(b))
    && DbInv(b.txn.base)
  }

  ghost predicate ActiveInv(s: State) {
    forall txn :: txn in s.active ==> BodyInv(s.active[txn]) && s.active[txn].txn.base in s.history
  }

  /** A row's attempt is what a mint made for this token, or a tombstone's name. */
  ghost predicate AttemptAt(s: State, db: Db<string, Row>, id: string)
    requires id in db.rows
  {
    var row := db.rows[id];
    if row.attempt in s.minted && s.minted[row.attempt].id == id
    then row.token == MintedToken(s.minted[row.attempt])
    else row.attempt in s.named && row.token == FirstToken
  }

  function MintedToken(m: Mint): nat {
    match m.existing
    case None => FirstToken
    case Some(existing) => existing.token + 1
  }

  ghost predicate Attempts(s: State, db: Db<string, Row>) {
    forall id :: id in db.rows ==> AttemptAt(s, db, id)
  }

  /** The aborted row a claimer found was there. */
  ghost predicate MintSeen(s: State, m: Mint) {
    m.existing.Some? ==>
      && m.existing.value.state == Aborted && m.existing.value.digest == m.digest
      && exists i :: 0 <= i < |s.history| && Get(s.history[i].rows, m.id) == m.existing
  }

  ghost predicate AttemptInv(s: State) {
    && (forall i :: 0 <= i < |s.history| ==> Attempts(s, s.history[i]))
    && (forall attempt :: attempt in s.minted ==> MintSeen(s, s.minted[attempt]))
  }

  predicate Committing(row: Option<Row>, d: Durable) {
    row.Some? && row.value.state == Committed && row.value.attempt == d.attempt && row.value.receipt == Some(d.receipt)
  }

  /** Durable bodies and committed rows correspond one to one. */
  ghost predicate DurableInv(s: State)
    requires s.history != []
  {
    && (forall i :: 0 <= i < |s.durable| ==> Committing(Get(Current(s).rows, s.durable[i].id), s.durable[i]))
    && (forall i, j :: 0 <= i < j < |s.durable| ==> s.durable[i].id != s.durable[j].id)
    && (forall id :: id in Current(s).rows && Current(s).rows[id].state == Committed ==> HasDurable(s, id))
  }

  ghost predicate HasDurable(s: State, id: string) {
    exists i :: 0 <= i < |s.durable| && s.durable[i].id == id
  }

  ghost predicate Inv(s: State) {
    HistoryInv(s.history) && ActiveInv(s) && AttemptInv(s) && DurableInv(s)
  }

  // Later states

  lemma LaterIsTransitive(a: Db<string, Row>, b: Db<string, Row>, c: Db<string, Row>)
    requires Later(a, b) && Later(b, c)
    ensures Later(a, c)
  {
    forall id
      ensures LaterAt(a, c, id)
    {
      assert LaterAt(a, b, id) && LaterAt(b, c, id);
    }
  }

  lemma LaterItself(db: Db<string, Row>)
    ensures Later(db, db)
  {
    forall id
      ensures LaterAt(db, db, id)
    {
    }
  }

  lemma HistoryGrows(history: seq<Db<string, Row>>, db: Db<string, Row>)
    requires HistoryInv(history) && DbInv(db) && Later(history[|history| - 1], db)
    ensures HistoryInv(history + [db])
  {
    hide Later, DbInv;
    var grown := history + [db];
    forall i | 0 <= i < |grown|
      ensures DbInv(grown[i]) && Later(grown[i], db)
    {
      if i < |history| {
        LaterIsTransitive(history[i], history[|history| - 1], db);
      } else {
        LaterItself(db);
      }
    }
  }

  ghost predicate RowStep(rows: Rows, id: string, after: Row) {
    RowValid(id, after) && (id in rows ==> Follows(rows[id], after))
  }

  lemma WriteIsLater(db: Db<string, Row>, id: string, after: Row)
    requires DbInv(db) && RowStep(db.rows, id, after)
    ensures DbInv(Write(db, id, after)) && Later(db, Write(db, id, after))
  {
    var db' := Write(db, id, after);
    forall other
      ensures LaterAt(db, db', other)
    {
      WriteAt(db, id, after, other);
    }
  }

  /** A committed body takes over the pending row it saw: nothing wrote the row in between. */
  lemma CommitIsLater(db: Db<string, Row>, b: Body)
    requires DbInv(db) && BodyInv(b) && b.saved.Some? && Later(b.txn.base, db) && NoConflict(db, b.txn)
    ensures Get(db.rows, b.id) == Some(b.txn.base.rows[b.id])
    ensures Get(Commit(db, b.txn).rows, b.id) == Some(b.txn.view[b.id])
    ensures DbInv(Commit(db, b.txn)) && Later(db, Commit(db, b.txn))
  {
    hide Commit;
    var db' := Commit(db, b.txn);
    assert LaterAt(b.txn.base, db, b.id);
    CommitAt(db, b.txn, b.id);
    forall id
      ensures LaterAt(db, db', id)
    {
      CommitAt(db, b.txn, id);
    }
    forall id | id in db'.rows
      ensures RowValid(id, db'.rows[id])
    {
      CommitAt(db, b.txn, id);
      assert Get(db'.rows, id) == if id == b.id then Some(b.txn.view[b.id]) else Get(db.rows, id);
    }
  }

  // Steps that write no row

  /** Minting, naming and work inside transactions leave rows and durable bodies as they are. */
  lemma QuietStep(s: State, s': State)
    requires Inv(s) && s'.history == s.history && s'.durable == s.durable && s.named <= s'.named
    requires forall a :: a in s.minted ==> a in s'.minted && s'.minted[a] == s.minted[a]
    requires forall a :: a in s'.minted && a !in s.minted ==> a !in s.named && MintSeen(s', s'.minted[a])
    requires ActiveInv(s')
    ensures Inv(s')
  {
    assert s.history != [];
    hide HistoryInv, BodyInv, DbInv, MintSeen;
    forall i | 0 <= i < |s'.history|
      ensures Attempts(s', s'.history[i])
    {
      assert Attempts(s, s.history[i]);
      forall id | id in s.history[i].rows
        ensures AttemptAt(s', s.history[i], id)
      {
        assert AttemptAt(s, s.history[i], id);
      }
    }
    forall a | a in s'.minted
      ensures MintSeen(s', s'.minted[a])
    {
      if a in s.minted {
        MintStaysSeen(s, s', s.minted[a]);
      }
    }
    forall k | k in Current(s').rows && Current(s').rows[k].state == Committed
      ensures HasDurable(s', k)
    {
      assert HasDurable(s, k);
    }
  }

  // Single-row writes

  lemma ActiveGrows(s: State, s': State)
    requires ActiveInv(s) && s.history <= s'.history
    requires forall txn :: txn in s'.active ==> txn in s.active && s'.active[txn] == s.active[txn]
    ensures ActiveInv(s')
  {
    hide BodyInv;
    forall txn | txn in s'.active
      ensures BodyInv(s'.active[txn]) && s'.active[txn].txn.base in s'.history
    {
      var i :| 0 <= i < |s.history| && s.history[i] == s.active[txn].txn.base;
      assert s'.history[i] == s.active[txn].txn.base;
    }
  }

  lemma AttemptsGrow(s: State, s': State, db: Db<string, Row>)
    requires AttemptInv(s) && s'.minted == s.minted && s'.named == s.named && s'.history == s.history + [db]
    requires Attempts(s, db)
    ensures AttemptInv(s')
  {
    forall i | 0 <= i < |s'.history|
      ensures Attempts(s', s'.history[i])
    {
      assert Attempts(s, s'.history[i]);
      forall id | id in s'.history[i].rows
        ensures AttemptAt(s', s'.history[i], id)
      {
        assert AttemptAt(s, s'.history[i], id);
      }
    }
    forall attempt | attempt in s'.minted
      ensures MintSeen(s', s'.minted[attempt])
    {
      MintStaysSeen(s, s', s.minted[attempt]);
    }
  }

  lemma MintStaysSeen(s: State, s': State, m: Mint)
    requires MintSeen(s, m) && s.history <= s'.history
    ensures MintSeen(s', m)
  {
    if m.existing.Some? {
      var i :| 0 <= i < |s.history| && Get(s.history[i].rows, m.id) == m.existing;
      assert Get(s'.history[i].rows, m.id) == m.existing;
    }
  }

  ghost predicate Uncommitted(row: Option<Row>) {
    row.Some? ==> row.value.state != Committed
  }

  /** A row with the attempt it had, or one that this attempt may have. */
  ghost predicate AttemptFits(s: State, id: string, row: Row) {
    if row.attempt in s.minted && s.minted[row.attempt].id == id
    then row.token == MintedToken(s.minted[row.attempt])
    else row.attempt in s.named && row.token == FirstToken
  }

  lemma UpdateKeepsInv(s: State, id: string, row: Option<Row>)
    requires Inv(s)
    requires row.Some? ==>
      && RowStep(Current(s).rows, id, row.value) && AttemptFits(s, id, row.value)
      && Uncommitted(row) && Uncommitted(Get(Current(s).rows, id))
    ensures Update(s, id, row).Some? ==> Inv(Update(s, id, row).value)
  {
    if row.Some? {
      var db := Write(Current(s), id, row.value);
      var s' := Update(s, id, row).value;
      UpdateKeepsHistory(s, id, row.value);
      UpdateKeepsAttempts(s, s', id, row.value);
      UpdateKeepsDurable(s, s', id, row.value);
      ActiveGrows(s, s') by {
        hide BodyInv;
      }
    }
  }

  lemma UpdateKeepsHistory(s: State, id: string, row: Row)
    requires HistoryInv(s.history) && RowStep(Current(s).rows, id, row)
    ensures HistoryInv(s.history + [Write(Current(s), id, row)])
  {
    hide Later, DbInv, RowStep;
    WriteIsLater(Current(s), id, row);
    HistoryGrows(s.history, Write(Current(s), id, row));
  }

  lemma UpdateKeepsAttempts(s: State, s': State, id: string, row: Row)
    requires Inv(s) && AttemptFits(s, id, row) && Update(s, id, Some(row)) == Some(s')
    ensures AttemptInv(s')
  {
    hide Later, DbInv, ActiveInv, DurableInv, MintSeen;
    var db := Write(Current(s), id, row);
    assert Attempts(s, Current(s));
    forall other | other in db.rows
      ensures AttemptAt(s, db, other)
    {
      if other != id {
        assert AttemptAt(s, Current(s), other);
      }
    }
    AttemptsGrow(s, s', db);
  }

  lemma UpdateKeepsDurable(s: State, s': State, id: string, row: Row)
    requires s.history != [] && DurableInv(s) && Update(s, id, Some(row)) == Some(s')
    requires row.state != Committed && Uncommitted(Get(Current(s).rows, id))
    ensures DurableInv(s')
  {
    forall i | 0 <= i < |s'.durable|
      ensures Committing(Get(Current(s').rows, s'.durable[i].id), s'.durable[i])
    {
      assert Committing(Get(Current(s).rows, s.durable[i].id), s.durable[i]);
    }
    forall k | k in Current(s').rows && Current(s').rows[k].state == Committed
      ensures HasDurable(s', k)
    {
      assert k != id;
      assert HasDurable(s, k);
    }
  }

  lemma CurrentFits(s: State, id: string)
    requires Inv(s) && id in Current(s).rows
    ensures AttemptFits(s, id, Current(s).rows[id]) && RowValid(id, Current(s).rows[id])
  {
    hide Later, ActiveInv, DurableInv, RowValid;
    assert Attempts(s, Current(s)) && AttemptAt(s, Current(s), id);
    assert DbInv(Current(s));
  }

  lemma FencesKeepInv(s: State, a: Action)
    requires Inv(s) && (a.FenceAbortedOperation? || a.FenceExpiredOperation?)
    ensures Inv(Step(s, a))
  {
    var doc := ReadAt(s, a.id, a.readAt);
    var row := Get(Current(s).rows, a.id);
    if doc.Some? && StillPending(row, doc.value) {
      CurrentFits(s, a.id);
      hide Inv;
      UpdateKeepsInv(s, a.id, FenceAborted(row, doc.value));
      UpdateKeepsInv(s, a.id, FenceExpired(row, doc.value, s.now));
    }
  }

  lemma ClaimKeepsInv(s: State, attempt: string, owner: string, lease: nat)
    requires Inv(s)
    ensures Inv(Step(s, ClaimOperation(attempt, owner, lease)))
  {
    assert s.history != [];
    hide Inv, HistoryInv, ActiveInv, AttemptInv, DurableInv, InsertClaim, Reclaim;
    if attempt in s.minted {
      var m := s.minted[attempt];
      var row := Get(Current(s).rows, m.id);
      match m.existing
      case None =>
        ClaimFits(s, attempt, row, InsertClaim(row, m.digest, attempt, owner, s.now + lease), owner, s.now + lease);
        UpdateKeepsInv(s, m.id, InsertClaim(row, m.digest, attempt, owner, s.now + lease));
      case Some(existing) =>
        ClaimFits(s, attempt, row, Reclaim(row, existing, m.digest, attempt, owner, s.now + lease), owner, s.now + lease);
        UpdateKeepsInv(s, m.id, Reclaim(row, existing, m.digest, attempt, owner, s.now + lease));
    }
  }

  lemma ClaimFits(s: State, attempt: string, row: Option<Row>, after: Option<Row>, owner: string, leaseUntil: nat)
    requires s.history != [] && attempt in s.minted && row == Get(Current(s).rows, s.minted[attempt].id)
    requires var m := s.minted[attempt];
      match m.existing
      case None => after == InsertClaim(row, m.digest, attempt, owner, leaseUntil)
      case Some(existing) => after == Reclaim(row, existing, m.digest, attempt, owner, leaseUntil)
    ensures after.Some? ==>
      && RowStep(Current(s).rows, s.minted[attempt].id, after.value) && AttemptFits(s, s.minted[attempt].id, after.value)
      && Uncommitted(after) && Uncommitted(row)
  {
  }

  lemma MintedRowIsThere(s: State, m: Mint)
    requires HistoryInv(s.history) && MintSeen(s, m) && m.existing.Some?
    ensures m.id in Current(s).rows
  {
    var i :| 0 <= i < |s.history| && Get(s.history[i].rows, m.id) == m.existing;
    assert LaterAt(s.history[i], Current(s), m.id);
  }

  lemma TombstoneKeepsInv(s: State, id: string, digest: string, attempt: string, owner: string, lease: nat)
    requires Inv(s)
    ensures Inv(Step(s, TombstoneOperation(id, digest, attempt, owner, lease)))
  {
    var named := s.(named := s.named + {attempt});
    ActiveGrows(s, named) by {
      hide BodyInv;
    }
    QuietStep(s, named);
    var row := Get(Current(s).rows, id);
    if row.None? {
      if attempt in s.minted && s.minted[attempt].id == id && s.minted[attempt].existing.Some? {
        MintedRowIsThere(s, s.minted[attempt]);
      }
      hide Inv;
      UpdateKeepsInv(named, id, InsertTombstone(row, digest, attempt, owner, s.now + lease));
    }
  }

  lemma QuietActionsKeepInv(s: State, a: Action)
    requires Inv(s) && (a.Tick? || a.MintAttempt? || a.AbortBody?)
    ensures Inv(Step(s, a))
  {
    assert s.history != [];
    hide HistoryInv, BodyInv, DbInv, AttemptInv, DurableInv;
    var s' := Step(s, a);
    ActiveGrows(s, s');
    if a.MintAttempt? {
      var existing := ReadAt(s, a.id, a.readAt);
      assert a.readAt < |s.history| ==> Get(s.history[a.readAt].rows, a.id) == existing;
      assert a.attempt in s'.minted && a.attempt !in s.minted ==> MintSeen(s', s'.minted[a.attempt]);
    }
    QuietStep(s, s');
  }

  // Body transactions

  lemma StatementsKeepInv(s: State, txn: nat, b: Option<Body>)
    requires Inv(s) && (b.Some? ==> BodyInv(b.value) && b.value.txn.base in s.history)
    ensures Continue(s, txn, b).Some? ==> Inv(Continue(s, txn, b).value)
  {
    if b.Some? {
      var s' := Continue(s, txn, b).value;
      assert ActiveInv(s') by {
        hide BodyInv;
      }
      hide Inv, ActiveInv;
      QuietStep(s, s');
    }
  }

  lemma BodyStatementsAreSound(b: Body, now: nat, receipt: Receipt)
    requires BodyInv(b)
    ensures Guard(b, now).Some? ==> BodyInv(Guard(b, now).value) && Guard(b, now).value.txn.base == b.txn.base
    ensures Save(b, receipt, now).Some? ==> BodyInv(Save(b, receipt, now).value) && Save(b, receipt, now).value.txn.base == b.txn.base
  {
    hide DbInv;
    assert Get(b.txn.view, b.id) == if b.guarded then Some(b.txn.view[b.id]) else Get(b.txn.base.rows, b.id);
  }

  lemma BodyStepsKeepInv(s: State, a: Action)
    requires Inv(s) && (a.BeginBody? || a.GuardIn? || a.SaveIn?)
    ensures Inv(Step(s, a))
  {
    hide Guard, Save, Later, Attempts, DurableInv, DbInv;
    match a
    case BeginBody(txn, id, readAt, snapshot) =>
      if Next(s, a).Some? {
        var b := Body(id, ReadAt(s, id, readAt).value, Begin(s.history[snapshot]), false, None);
        assert DbInv(s.history[snapshot]);
        StatementsKeepInv(s, txn, Some(b));
      }
    case GuardIn(txn) =>
      if txn in s.active {
        BodyStatementsAreSound(s.active[txn], s.now, Receipt("", "", ""));
        hide Inv, BodyInv;
        StatementsKeepInv(s, txn, Guard(s.active[txn], s.now));
      }
    case SaveIn(txn, receipt) =>
      if txn in s.active {
        BodyStatementsAreSound(s.active[txn], s.now, receipt);
        hide Inv, BodyInv;
        StatementsKeepInv(s, txn, Save(s.active[txn], receipt, s.now));
      }
  }

  lemma CommitKeepsDurable(s: State, s': State, b: Body)
    requires s.history != [] && DurableInv(s) && b.saved.Some? && BodyInv(b)
    requires Get(Current(s).rows, b.id) == Some(b.txn.base.rows[b.id])
    requires s'.history == s.history + [Commit(Current(s), b.txn)]
    requires s'.durable == s.durable + [Durable(b.id, b.doc.attempt, b.saved.value)]
    ensures DurableInv(s')
  {
    hide Commit, DbInv;
    var last := |s.durable|;
    CommitAt(Current(s), b.txn, b.id);
    forall i | 0 <= i < |s'.durable|
      ensures Committing(Get(Current(s').rows, s'.durable[i].id), s'.durable[i])
      ensures i < last ==> s'.durable[i].id != b.id
    {
      if i < last {
        assert Committing(Get(Current(s).rows, s.durable[i].id), s.durable[i]);
        CommitAt(Current(s), b.txn, s.durable[i].id);
      }
    }
    forall k | k in Current(s').rows && Current(s').rows[k].state == Committed
      ensures HasDurable(s', k)
    {
      CommitAt(Current(s), b.txn, k);
      if k == b.id {
        assert s'.durable[last].id == k;
      } else {
        assert Get(Current(s').rows, k) == Get(Current(s).rows, k);
        assert HasDurable(s, k);
        var i :| 0 <= i < |s.durable| && s.durable[i].id == k;
        assert s'.durable[i].id == k;
      }
    }
  }

  lemma CommitKeepsAttempts(s: State, b: Body)
    requires s.history != [] && Attempts(s, Current(s)) && b.saved.Some? && BodyInv(b)
    requires Get(Current(s).rows, b.id) == Some(b.txn.base.rows[b.id])
    ensures Attempts(s, Commit(Current(s), b.txn))
  {
    hide Commit, DbInv;
    var db := Commit(Current(s), b.txn);
    forall id | id in db.rows
      ensures AttemptAt(s, db, id)
    {
      CommitAt(Current(s), b.txn, id);
      if id == b.id {
        assert Get(db.rows, id) == Some(b.txn.view[id]);
      } else {
        assert Get(db.rows, id) == Get(Current(s).rows, id);
      }
      assert AttemptAt(s, Current(s), id);
    }
  }

  lemma CommitKeepsInv(s: State, txn: nat)
    requires Inv(s)
    ensures Inv(Step(s, CommitBody(txn)))
  {
    hide Commit, NoConflict, DbInv, Later, DurableInv, Attempts, MintSeen, BodyInv;
    if Next(s, CommitBody(txn)).Some? {
      var b := s.active[txn];
      var s' := Step(s, CommitBody(txn));
      assert b.txn.base in s.history;
      var i :| 0 <= i < |s.history| && s.history[i] == b.txn.base;
      CommitIsLater(Current(s), b);
      HistoryGrows(s.history, Commit(Current(s), b.txn));
      ActiveGrows(s, s');
      assert Attempts(s, Current(s));
      CommitKeepsAttempts(s, b);
      AttemptsGrow(s, s', Commit(Current(s), b.txn));
      CommitKeepsDurable(s, s', b);
    }
  }

  lemma StepKeepsInv(s: State, a: Action)
    requires Inv(s)
    ensures Inv(Step(s, a)) && s.history <= Step(s, a).history
  {
    hide Inv;
    match a
    case ClaimOperation(attempt, owner, lease) => ClaimKeepsInv(s, attempt, owner, lease);
    case CommitBody(txn) => CommitKeepsInv(s, txn);
    case FenceAbortedOperation(id, readAt) => FencesKeepInv(s, a);
    case FenceExpiredOperation(id, readAt) => FencesKeepInv(s, a);
    case TombstoneOperation(id, digest, attempt, owner, lease) => TombstoneKeepsInv(s, id, digest, attempt, owner, lease);
    case _ =>
      if a.Tick? || a.MintAttempt? || a.AbortBody? {
        QuietActionsKeepInv(s, a);
      } else {
        BodyStepsKeepInv(s, a);
      }
  }

  lemma InitialIsSound()
    ensures Inv(Initial)
  {
    LaterItself(Empty());
  }

  lemma {:induction false} ExecutionKeepsInv(states: seq<State>, actions: seq<Action>, i: nat)
    requires Execution(states, actions) && i < |states|
    ensures Inv(states[i])
  {
    hide Inv, Step;
    if i == 0 {
      InitialIsSound();
    } else {
      ExecutionKeepsInv(states, actions, i - 1);
      assert StepAt(states, actions, i - 1);
      StepKeepsInv(states[i - 1], actions[i - 1]);
    }
  }

  lemma {:induction false} ExecutionGrows(states: seq<State>, actions: seq<Action>, i: nat, j: nat)
    requires Execution(states, actions) && i <= j < |states|
    ensures states[i].history <= states[j].history
    decreases j
  {
    hide Inv, Step;
    if i < j {
      ExecutionGrows(states, actions, i, j - 1);
      ExecutionKeepsInv(states, actions, j - 1);
      assert StepAt(states, actions, j - 1);
      StepKeepsInv(states[j - 1], actions[j - 1]);
    }
  }

  // Main results

  function RowOf(s: State, id: string): Option<Row> {
    if s.history == [] then None else Get(Current(s).rows, id)
  }

  /** Time only passes by ticks, bodies are apart, and one begins on the row and the snapshot it names. */
  lemma BodiesAreApart(s: State, a: Action, other: nat)
    requires s.history != []
    ensures var s' := Step(s, a);
      && s'.now == s.now + (if a.Tick? then a.elapsed else 0)
      && (NamesBody(a, other) || (other in s'.active <==> other in s.active))
      && (!NamesBody(a, other) && other in s.active ==> s'.active[other] == s.active[other])
      && (a.AbortBody? && a.txn == other ==> other !in s'.active)
      && (a.CommitBody? && a.txn == other && Next(s, a).Some? ==> other !in s'.active)
      && (a.BeginBody? && a.txn == other && other !in s.active && a.snapshot < |s.history| && ReadAt(s, a.id, a.readAt).Some? ==>
            && other in s'.active
            && s'.active[other].txn == Txn(s.history[a.snapshot], s.history[a.snapshot].rows, {})
            && Some(s'.active[other].doc) == ReadAt(s, a.id, a.readAt))
  {
    hide Commit, NoConflict, Guard, Save, InsertClaim, Reclaim, FenceAborted, FenceExpired, InsertTombstone, MayMint;
  }

  predicate NamesBody(a: Action, txn: nat) {
    (a.BeginBody? || a.GuardIn? || a.SaveIn? || a.CommitBody? || a.AbortBody?) && a.txn == txn
  }

  lemma StatesAreLater(states: seq<State>, actions: seq<Action>, i: nat, j: nat)
    requires Execution(states, actions) && i <= j < |states|
    ensures Inv(states[i]) && Inv(states[j]) && Later(Current(states[i]), Current(states[j]))
    ensures |states[i].history| <= |states[j].history| && states[j].history[|states[i].history| - 1] == Current(states[i])
  {
    hide Execution, Step, DbInv, Later, ActiveInv, AttemptInv, DurableInv;
    ExecutionKeepsInv(states, actions, i);
    ExecutionKeepsInv(states, actions, j);
    ExecutionGrows(states, actions, i, j);
  }

  /** Over every run an operation keeps its digest, a committed row never changes, and tokens never fall. */
  lemma OperationsAdvance(states: seq<State>, actions: seq<Action>, i: nat, j: nat, id: string)
    requires Execution(states, actions) && i <= j < |states| && RowOf(states[i], id).Some?
    ensures RowOf(states[j], id).Some? && Follows(RowOf(states[i], id).value, RowOf(states[j], id).value)
  {
    hide Execution, Follows, AttemptInv, ActiveInv, DurableInv, DbInv;
    StatesAreLater(states, actions, i, j);
    assert LaterAt(Current(states[i]), Current(states[j]), id);
  }

  /** Exactly once: no two bodies of one operation become durable, and a durable body's receipt is the row's. */
  lemma OneDurableBody(states: seq<State>, actions: seq<Action>, i: nat, k: nat)
    requires Execution(states, actions) && i < |states| && k < |states[i].durable|
    ensures var s := states[i];
      var d := s.durable[k];
      && (forall j :: 0 <= j < |s.durable| && s.durable[j].id == d.id ==> j == k)
      && RowOf(s, d.id).Some? && RowOf(s, d.id).value.state == Committed
      && RowOf(s, d.id).value.attempt == d.attempt && RowOf(s, d.id).value.receipt == Some(d.receipt)
      && ReceiptAccepted(d.id, RowOf(s, d.id).value.digest, d.receipt)
  {
    hide Execution, AttemptInv, ActiveInv, Later;
    ExecutionKeepsInv(states, actions, i);
    var s := states[i];
    assert DbInv(Current(s));
    assert Committing(RowOf(s, s.durable[k].id), s.durable[k]);
  }

  /** A committed answer comes from a durable body, and every later answer for the digest is the same receipt. */
  lemma CommittedAnswersAgree(states: seq<State>, actions: seq<Action>, i: nat, j: nat, id: string, digest: string, receipt: Receipt)
    requires Execution(states, actions) && i <= j < |states| && RowOf(states[i], id).Some?
    requires OperationResult(RowOf(states[i], id).value, digest) == CommittedAnswer(receipt)
    ensures exists k :: 0 <= k < |states[i].durable| && states[i].durable[k].id == id && states[i].durable[k].receipt == receipt
    ensures RowOf(states[j], id).Some? && OperationResult(RowOf(states[j], id).value, digest) == CommittedAnswer(receipt)
  {
    hide Execution, AttemptInv, ActiveInv, HistoryInv;
    OperationsAdvance(states, actions, i, j, id);
    ExecutionKeepsInv(states, actions, i);
    var s := states[i];
    assert HasDurable(s, id);
    var k :| 0 <= k < |s.durable| && s.durable[k].id == id;
    assert Committing(RowOf(s, id), s.durable[k]);
  }

  /** The rows an operation has had with one attempt have one token. */
  lemma AttemptHasOneToken(s: State, id: string, i: nat, j: nat)
    requires AttemptInv(s) && i < |s.history| && j < |s.history|
    requires id in s.history[i].rows && id in s.history[j].rows
    requires s.history[i].rows[id].attempt == s.history[j].rows[id].attempt
    ensures s.history[i].rows[id].token == s.history[j].rows[id].token
  {
    assert Attempts(s, s.history[i]) && Attempts(s, s.history[j]);
    assert AttemptAt(s, s.history[i], id) && AttemptAt(s, s.history[j], id);
  }

  /** Tokens rise strictly exactly when the attempt changes. */
  lemma ReclaimsRaiseTokens(states: seq<State>, actions: seq<Action>, i: nat, j: nat, id: string)
    requires Execution(states, actions) && i <= j < |states| && RowOf(states[i], id).Some?
    ensures RowOf(states[j], id).Some?
    ensures RowOf(states[i], id).value.attempt != RowOf(states[j], id).value.attempt <==>
            RowOf(states[i], id).value.token < RowOf(states[j], id).value.token
  {
    hide Execution, HistoryInv, ActiveInv, DurableInv, AttemptInv, Later;
    OperationsAdvance(states, actions, i, j, id);
    StatesAreLater(states, actions, i, j);
    if RowOf(states[i], id).value.attempt == RowOf(states[j], id).value.attempt {
      AttemptHasOneToken(states[j], id, |states[i].history| - 1, |states[j].history| - 1);
    }
  }

  /**
   * Aborted is final: once a fence, an expired lease or a tombstone left the row aborted with an attempt, no body of
   * that attempt is durable in any later state, delayed initial claims included.
   */
  lemma AbortedIsFinal(states: seq<State>, actions: seq<Action>, i: nat, j: nat, id: string)
    requires Execution(states, actions) && i <= j < |states|
    requires RowOf(states[i], id).Some? && RowOf(states[i], id).value.state == Aborted
    ensures forall d :: d in states[j].durable && d.id == id ==> d.attempt != RowOf(states[i], id).value.attempt
  {
    hide Execution, HistoryInv, ActiveInv, AttemptInv;
    OperationsAdvance(states, actions, i, j, id);
    ReclaimsRaiseTokens(states, actions, i, j, id);
    ExecutionKeepsInv(states, actions, j);
    var s' := states[j];
    forall d | d in s'.durable && d.id == id
      ensures d.attempt != RowOf(states[i], id).value.attempt
    {
      var k :| 0 <= k < |s'.durable| && s'.durable[k] == d;
      assert Committing(RowOf(s', s'.durable[k].id), s'.durable[k]);
    }
  }

  /** A caller that holds the row of an earlier attempt fences nothing. */
  lemma StaleAttemptFencesNothing(states: seq<State>, actions: seq<Action>, i: nat, id: string, readAt: nat)
    requires Execution(states, actions) && i < |actions|
    requires actions[i] == FenceAbortedOperation(id, readAt) || actions[i] == FenceExpiredOperation(id, readAt)
    requires ReadAt(states[i], id, readAt).Some? && RowOf(states[i], id).Some?
    requires ReadAt(states[i], id, readAt).value.attempt != RowOf(states[i], id).value.attempt
    ensures states[i + 1] == states[i]
    ensures ReadAt(states[i], id, readAt).value.token < RowOf(states[i], id).value.token
  {
    hide ActiveInv, DurableInv, AttemptInv, DbInv;
    ExecutionKeepsInv(states, actions, i);
    assert StepAt(states, actions, i);
    hide Execution;
    assert LaterAt(states[i].history[readAt], Current(states[i]), id);
  }

  /**
   * A pending claim whose lease has not expired is taken from its holder by nobody: one step changes the row only by
   * committing a body of this attempt or by the abort fence of a caller that holds this very claim.
   */
  lemma LeasedClaimIsItsHolders(states: seq<State>, actions: seq<Action>, i: nat, id: string)
    requires Execution(states, actions) && i < |actions| && RowOf(states[i], id).Some?
    requires RowOf(states[i], id).value.state == Pending && RowOf(states[i], id).value.leaseUntil > states[i].now
    ensures var s, a := states[i], actions[i];
      var row, row' := RowOf(s, id).value, RowOf(states[i + 1], id);
      || row' == Some(row)
      || (a.FenceAbortedOperation? && ReadAt(s, id, a.readAt).Some? && ReadAt(s, id, a.readAt).value.attempt == row.attempt &&
          row' == Some(row.(state := Aborted)))
      || (a.CommitBody? && a.txn in s.active && s.active[a.txn].doc.attempt == row.attempt &&
          row' == Some(row.(state := Committed, receipt := s.active[a.txn].saved)))
  {
    hide Inv, Step;
    ExecutionKeepsInv(states, actions, i);
    assert StepAt(states, actions, i);
    hide Execution, StepAt;
    LeasedClaimStep(states[i], actions[i], id);
  }

  lemma LeasedClaimStep(s: State, a: Action, id: string)
    requires Inv(s) && RowOf(s, id).Some? && RowOf(s, id).value.state == Pending && RowOf(s, id).value.leaseUntil > s.now
    ensures var row, row' := RowOf(s, id).value, RowOf(Step(s, a), id);
      || row' == Some(row)
      || (a.FenceAbortedOperation? && ReadAt(s, id, a.readAt).Some? && ReadAt(s, id, a.readAt).value.attempt == row.attempt &&
          row' == Some(row.(state := Aborted)))
      || (a.CommitBody? && a.txn in s.active && s.active[a.txn].doc.attempt == row.attempt &&
          row' == Some(row.(state := Committed, receipt := s.active[a.txn].saved)))
  {
    assert s.history != [];
    if a.CommitBody? && Next(s, a).Some? {
      CommittedRow(s, a.txn, id);
    }
    hide Inv, HistoryInv, ActiveInv, AttemptInv, DurableInv, Commit, Guard, Save;
  }

  lemma CommittedRow(s: State, txn: nat, id: string)
    requires HistoryInv(s.history) && ActiveInv(s) && Next(s, CommitBody(txn)).Some?
    ensures var b := s.active[txn];
      if id != b.id then RowOf(Step(s, CommitBody(txn)), id) == RowOf(s, id)
      else
        && RowOf(s, id).Some? && RowOf(s, id).value.attempt == b.doc.attempt
        && RowOf(Step(s, CommitBody(txn)), id) == Some(RowOf(s, id).value.(state := Committed, receipt := b.saved))
  {
    hide DbInv, Later, Commit, NoConflict;
    var b := s.active[txn];
    assert b.txn.base in s.history;
    var i :| 0 <= i < |s.history| && s.history[i] == b.txn.base;
    CommitIsLater(Current(s), b);
    CommitAt(Current(s), b.txn, id);
  }
}
