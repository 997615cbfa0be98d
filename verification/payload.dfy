/** Payload rows, their references and their collection (pkg/storage/mongodb/payload.go), step by step. */
module Payload {
  import opened Bytes
  import opened Snapshot
  import opened Tokens
  import opened Wrappers

  datatype PayloadState = Uploading | Ready | Deleting | Deleted

  /** Payloads of one chain, and references to them from any node and for any owner and kind. */
  datatype Key =
    | PayloadKey(digest: string)
    | ReferenceKey(scope: string, ownerKind: string, ownerID: string, kind: string, digest: string)

  datatype Row =
    | PayloadRow(length: nat, state: PayloadState, owner: string, token: nat, leaseUntil: nat)
    | ReferenceRow(length: nat)

  type Rows = map<Key, Row>

  function PayloadAt(rows: Rows, digest: string): Option<Row> {
    var k := PayloadKey(digest);
    if k in rows && rows[k].PayloadRow? then Some(rows[k]) else None
  }

  // Updates of one payload row: the filter that must match, then the row that replaces it

  predicate LeaseCurrent(row: Row, now: nat)
    requires row.PayloadRow?
  {
    row.leaseUntil > now
  }

  function InsertUploading(row: Option<Row>, length: nat, owner: string, leaseUntil: nat): Option<Row> {
    if row.None? then Some(PayloadRow(length, Uploading, owner, FirstToken, leaseUntil)) else None
  }

  /** The caller read `existing`, of the same length and deleted, some time before. */
  function Recycle(row: Option<Row>, existing: Option<Row>, length: nat, owner: string, leaseUntil: nat): Option<Row> {
    if existing.None? || !existing.value.PayloadRow? then None
    else if existing.value.state != Deleted || existing.value.length != length then None
    else
      match TokenAfter(existing.value.token)
      case None => None
      case Some(token) =>
        if row.Some? && row.value.PayloadRow? && row.value.state == Deleted && row.value.token == existing.value.token
        then Some(PayloadRow(length, Uploading, owner, token, leaseUntil)) else None
  }

  predicate UploadingBy(row: Option<Row>, owner: string, token: nat) {
    row.Some? && row.value.PayloadRow? && row.value.state == Uploading && row.value.owner == owner && row.value.token == token
  }

  function ResumeUpload(row: Option<Row>, owner: string, token: nat, leaseUntil: nat): Option<Row> {
    if UploadingBy(row, owner, token) then Some(row.value.(leaseUntil := leaseUntil)) else None
  }

  function Publish(row: Option<Row>, owner: string, token: nat, now: nat, leaseUntil: nat): Option<Row> {
    if UploadingBy(row, owner, token) && LeaseCurrent(row.value, now)
    then Some(row.value.(state := Ready, leaseUntil := leaseUntil)) else None
  }

  function FinishDeletion(row: Option<Row>, token: nat): Option<Row> {
    if row.Some? && row.value.PayloadRow? && row.value.state == Deleting && row.value.token == token
    then Some(row.value.(state := Deleted)) else None
  }

  // Statements inside a transaction; None aborts it

  function TouchReady(t: Txn<Key, Row>, digest: string, length: nat): Option<Txn<Key, Row>> {
    var row := PayloadAt(t.view, digest);
    if row.Some? && row.value.state == Ready && row.value.length == length
    then Some(Put(t, PayloadKey(digest), row.value)) else None
  }

  function Pin(t: Txn<Key, Row>, ref: Key, length: nat): Option<Txn<Key, Row>>
    requires ref.ReferenceKey?
  {
    match TouchReady(t, ref.digest, length)
    case None => None
    case Some(touched) => Some(Put(touched, ref, ReferenceRow(length)))
  }

  function Release(t: Txn<Key, Row>, ref: Key, length: nat): Option<Txn<Key, Row>>
    requires ref.ReferenceKey?
  {
    if ref !in t.view then Some(t)
    else
      match TouchReady(t, ref.digest, length)
      case None => None
      case Some(touched) => Some(Remove(touched, ref))
  }

  predicate Referenced(rows: Rows, digest: string) {
    exists k :: k in rows && k.ReferenceKey? && k.digest == digest
  }

  function ClaimExpired(t: Txn<Key, Row>, digest: string, oldState: PayloadState, oldToken: nat, owner: string,
                        now: nat, leaseUntil: nat): Option<Txn<Key, Row>> {
    var row := PayloadAt(t.view, digest);
    match TokenAfter(oldToken)
    case None => None
    case Some(next) =>
      if oldState == Deleting || oldState == Deleted then None
      else if !(row.Some? && row.value.state == oldState && row.value.token == oldToken && !LeaseCurrent(row.value, now)) then None
      else
        var claimed := row.value.(state := Deleting, owner := owner, token := next, leaseUntil := leaseUntil);
        var t' := Put(t, PayloadKey(digest), claimed);
        if Referenced(t'.view, digest) then None else Some(t')
  }

  // Steps of all nodes together

  /**
   * `history` holds every state the database has had, the current one last. A transaction may read any of them,
   * and so may a caller that read a row a while ago.
   */
  datatype State = State(now: nat, history: seq<Db<Key, Row>>, active: map<nat, Txn<Key, Row>>)

  /** Each row carries what its caller remembers; commit replies may be lost, so a caller may be anywhere. */
  datatype Action =
    | Tick(elapsed: nat)
    | InsertUploadingRow(digest: string, length: nat, owner: string, lease: nat)
    | RecycleRow(digest: string, readAt: nat, length: nat, owner: string, lease: nat)
    | ResumeRow(digest: string, owner: string, token: nat, lease: nat)
    | PublishRow(digest: string, owner: string, token: nat, lease: nat)
    | FinishDeletionRow(digest: string, token: nat)
    | BeginTxn(id: nat, snapshot: nat)
    | PinIn(id: nat, ref: Key, length: nat)
    | ReleaseIn(id: nat, ref: Key, length: nat)
    | ClaimIn(id: nat, digest: string, oldState: PayloadState, oldToken: nat, owner: string, lease: nat)
    | CommitTxn(id: nat)
    | AbortTxn(id: nat)

  const Initial: State := State(0, [Empty()], map[])

  function Current(s: State): Db<Key, Row>
    requires s.history != []
  {
    s.history[|s.history| - 1]
  }

  function Update(s: State, digest: string, row: Option<Row>): Option<State>
    requires s.history != []
  {
    match row
    case None => None
    case Some(r) => Some(s.(history := s.history + [Write(Current(s), PayloadKey(digest), r)]))
  }

  function Continue(s: State, id: nat, t: Option<Txn<Key, Row>>): Option<State> {
    match t
    case None => None
    case Some(txn) => Some(s.(active := s.active[id := txn]))
  }

  /** The state after an action, or None when its filter does not match. */
  function Next(s: State, a: Action): Option<State>
    requires s.history != []
  {
    var rows := Current(s).rows;
    match a
    case Tick(elapsed) => Some(s.(now := s.now + elapsed))
    case InsertUploadingRow(digest, length, owner, lease) =>
      Update(s, digest, InsertUploading(Get(rows, PayloadKey(digest)), length, owner, s.now + lease))
    case RecycleRow(digest, readAt, length, owner, lease) =>
      var existing := if readAt < |s.history| then PayloadAt(s.history[readAt].rows, digest) else None;
      Update(s, digest, Recycle(Get(rows, PayloadKey(digest)), existing, length, owner, s.now + lease))
    case ResumeRow(digest, owner, token, lease) =>
      Update(s, digest, ResumeUpload(Get(rows, PayloadKey(digest)), owner, token, s.now + lease))
    case PublishRow(digest, owner, token, lease) =>
      Update(s, digest, Publish(Get(rows, PayloadKey(digest)), owner, token, s.now, s.now + lease))
    case FinishDeletionRow(digest, token) =>
      Update(s, digest, FinishDeletion(Get(rows, PayloadKey(digest)), token))
    case BeginTxn(id, snapshot) =>
      if id in s.active || snapshot >= |s.history| then None
      else Some(s.(active := s.active[id := Begin(s.history[snapshot])]))
    case PinIn(id, ref, length) =>
      if id in s.active && ref.ReferenceKey? then Continue(s, id, Pin(s.active[id], ref, length)) else None
    case ReleaseIn(id, ref, length) =>
      if id in s.active && ref.ReferenceKey? then Continue(s, id, Release(s.active[id], ref, length)) else None
    case ClaimIn(id, digest, oldState, oldToken, owner, lease) =>
      if id in s.active
      then Continue(s, id, ClaimExpired(s.active[id], digest, oldState, oldToken, owner, s.now, s.now + lease))
      else None
    case CommitTxn(id) =>
      if id in s.active && NoConflict(Current(s), s.active[id])
      then Some(s.(history := s.history + [Commit(Current(s), s.active[id])], active := s.active - {id})) else None
    case AbortTxn(id) =>
      Some(s.(active := s.active - {id}))
  }

  function Step(s: State, a: Action): State
    requires s.history != []
  {
    match Next(s, a)
    case None => s
    case Some(s') => s'
  }

  ghost predicate StepAt(states: seq<State>, actions: seq<Action>, i: nat)
    requires i < |actions| && |states| == |actions| + 1
  {
    states[i].history != [] && states[i + 1] == Step(states[i], actions[i])
  }

  /** A run from the initial state; an action that does not apply changes nothing. */
  ghost predicate Execution(states: seq<State>, actions: seq<Action>) {
    && |states| == |actions| + 1 && states[0] == Initial
    && forall i :: 0 <= i < |actions| ==> StepAt(states, actions, i)
  }

  // What every step keeps

  /** A reference is only to a ready payload of its length. */
  ghost predicate Retained(rows: Rows) {
    forall k :: k in rows && k.ReferenceKey? ==> RetainedAt(rows, k)
  }

  predicate RetainedAt(rows: Rows, k: Key)
    requires k in rows && k.ReferenceKey?
  {
    var row := PayloadAt(rows, k.digest);
    && rows[k].ReferenceRow?
    && row.Some? && row.value.state == Ready && row.value.length == rows[k].length
  }

  predicate Live(state: PayloadState) {
    state == Uploading || state == Ready
  }

  /** A generation goes from uploading to ready or from deleting to deleted; any other change raises the token. */
  predicate Follows(before: Row, after: Row) {
    && before.PayloadRow? && after.PayloadRow?
    && after.length == before.length
    && before.token <= after.token
    && (before.token == after.token ==>
          && (Live(before.state) <==> Live(after.state))
          && (before.state == Ready ==> after.state == Ready)
          && (before.state == Deleted ==> after.state == Deleted))
  }

  ghost predicate SameReferences(a: Rows, b: Rows, digest: string) {
    forall k: Key :: k.ReferenceKey? && k.digest == digest ==> Get(a, k) == Get(b, k)
  }

  ghost predicate LaterAt(before: Db<Key, Row>, after: Db<Key, Row>, digest: string) {
    var k := PayloadKey(digest);
    && Version(before, k) <= Version(after, k)
    && (Version(before, k) == Version(after, k) ==>
          Get(before.rows, k) == Get(after.rows, k) && SameReferences(before.rows, after.rows, digest))
    && (k in before.rows ==> k in after.rows && Follows(before.rows[k], after.rows[k]))
  }

  /** As long as a payload row is not written, the references to it stay as they are too. */
  ghost predicate Later(before: Db<Key, Row>, after: Db<Key, Row>) {
    forall digest :: LaterAt(before, after, digest)
  }

  ghost predicate PayloadsTyped(rows: Rows) {
    forall k :: k in rows && k.PayloadKey? ==> rows[k].PayloadRow?
  }

  ghost predicate DbInv(db: Db<Key, Row>) {
    Retained(db.rows) && PayloadsTyped(db.rows)
  }

  /** A transaction takes a live payload away only after its lease has expired. */
  ghost predicate WrittenPayload(base: Rows, view: Rows, digest: string, now: nat) {
    var k := PayloadKey(digest);
    k in base ==>
      && k in view && Follows(base[k], view[k])
      && (view[k] == base[k] || (view[k].state == Deleting && Live(base[k].state) && base[k].leaseUntil <= now))
  }

  /** Whoever writes a reference writes its payload row in the same transaction. */
  ghost predicate TxnInv(t: Txn<Key, Row>, now: nat) {
    && Retained(t.view) && PayloadsTyped(t.view)
    && (forall k :: k in t.writes && k.ReferenceKey? ==> PayloadKey(k.digest) in t.writes)
    && (forall k :: k !in t.writes ==> Get(t.view, k) == Get(t.base.rows, k))
    && (forall digest :: WrittenPayload(t.base.rows, t.view, digest, now))
  }

  ghost predicate HistoryInv(history: seq<Db<Key, Row>>) {
    && history != []
    && (forall i :: 0 <= i < |history| ==> DbInv(history[i]))
    && (forall i :: 0 <= i < |history| ==> Later(history[i], history[|history| - 1]))
  }

  ghost predicate ActiveInv(s: State) {
    forall id :: id in s.active ==> TxnInv(s.active[id], s.now) && s.active[id].base in s.history
  }

  ghost predicate Inv(s: State) {
    HistoryInv(s.history) && ActiveInv(s)
  }

  lemma FollowsIsTransitive(a: Row, b: Row, c: Row)
    requires Follows(a, b) && Follows(b, c)
    ensures Follows(a, c)
  {
  }

  lemma LaterIsTransitive(a: Db<Key, Row>, b: Db<Key, Row>, c: Db<Key, Row>)
    requires Later(a, b) && Later(b, c)
    ensures Later(a, c)
  {
    hide Follows, Get, Version;
    forall digest
      ensures LaterAt(a, c, digest)
    {
      var k := PayloadKey(digest);
      assert LaterAt(a, b, digest) && LaterAt(b, c, digest);
      if k in a.rows {
        FollowsIsTransitive(a.rows[k], b.rows[k], c.rows[k]);
      }
    }
  }

  lemma FollowsItself(row: Row)
    requires row.PayloadRow?
    ensures Follows(row, row)
  {
  }

  lemma LaterItself(db: Db<Key, Row>)
    requires PayloadsTyped(db.rows)
    ensures Later(db, db)
  {
    forall digest
      ensures LaterAt(db, db, digest)
    {
    }
  }

  /** A new current state that is sound and later than the last one keeps the history sound. */
  lemma HistoryGrows(history: seq<Db<Key, Row>>, db: Db<Key, Row>)
    requires HistoryInv(history) && DbInv(db) && Later(history[|history| - 1], db)
    ensures HistoryInv(history + [db])
  {
    hide Later, DbInv;
    var grown := history + [db];
    forall i | 0 <= i < |grown|
      ensures DbInv(grown[i]) && Later(grown[i], db)
    {
      if i < |history| {
        LaterIsTransitive(history[i], history[|history| - 1], db);
      } else {
        LaterItself(db) by {
          assert DbInv(db);
          TypedByInv(db);
        }
      }
    }
  }

  lemma TypedByInv(db: Db<Key, Row>)
    requires DbInv(db)
    ensures PayloadsTyped(db.rows)
  {
  }

  // Updates of one row

  /** What the filters allow: a live row is never taken away, and only an unreferenced row changes its generation. */
  ghost predicate RowStep(rows: Rows, digest: string, after: Row) {
    var k := PayloadKey(digest);
    && after.PayloadRow?
    && (k in rows ==> Follows(rows[k], after))
    && (k in rows && rows[k].PayloadRow? && rows[k].state == Ready ==> after.state == Ready)
  }

  lemma WriteIsLater(db: Db<Key, Row>, digest: string, after: Row)
    requires DbInv(db) && RowStep(db.rows, digest, after)
    ensures var db' := Write(db, PayloadKey(digest), after); DbInv(db') && Later(db, db')
  {
    hide Follows;
    var db' := Write(db, PayloadKey(digest), after);
    forall k | k in db'.rows && k.ReferenceKey?
      ensures RetainedAt(db'.rows, k)
    {
      assert RetainedAt(db.rows, k);
      if k.digest == digest && PayloadKey(digest) in db.rows {
        SameLength(db.rows[PayloadKey(digest)], after);
      }
    }
    forall other
      ensures LaterAt(db, db', other)
    {
      WriteAt(db, PayloadKey(digest), after, PayloadKey(other));
      if PayloadKey(other) in db.rows && other != digest {
        FollowsItself(db.rows[PayloadKey(other)]);
      }
    }
  }

  lemma SameLength(before: Row, after: Row)
    requires Follows(before, after)
    ensures before.PayloadRow? && after.PayloadRow? && before.length == after.length
  {
  }

  // Transactions

  lemma BeginIsSound(db: Db<Key, Row>, now: nat)
    requires DbInv(db)
    ensures TxnInv(Begin(db), now)
  {
    forall digest
      ensures WrittenPayload(db.rows, db.rows, digest, now)
    {
    }
  }

  lemma TouchIsSound(t: Txn<Key, Row>, digest: string, length: nat, now: nat)
    requires TxnInv(t, now) && TouchReady(t, digest, length).Some?
    ensures TxnInv(TouchReady(t, digest, length).value, now)
    ensures var t' := TouchReady(t, digest, length).value;
      t'.view == t.view && t'.base == t.base && t'.writes == t.writes + {PayloadKey(digest)}
  {
    hide Follows;
    var t' := TouchReady(t, digest, length).value;
    assert t'.view == t.view;
    forall other
      ensures WrittenPayload(t'.base.rows, t'.view, other, now)
    {
      assert WrittenPayload(t.base.rows, t.view, other, now);
    }
  }

  lemma PinIsSound(t: Txn<Key, Row>, ref: Key, length: nat, now: nat)
    requires TxnInv(t, now) && ref.ReferenceKey? && Pin(t, ref, length).Some?
    ensures TxnInv(Pin(t, ref, length).value, now) && Pin(t, ref, length).value.base == t.base
  {
    hide Follows;
    TouchIsSound(t, ref.digest, length, now);
    var t' := Pin(t, ref, length).value;
    forall k | k in t'.view && k.ReferenceKey?
      ensures RetainedAt(t'.view, k)
    {
      if k != ref {
        assert RetainedAt(t.view, k);
      }
    }
    forall digest
      ensures WrittenPayload(t'.base.rows, t'.view, digest, now)
    {
      assert WrittenPayload(t.base.rows, t.view, digest, now);
    }
  }

  lemma ReleaseIsSound(t: Txn<Key, Row>, ref: Key, length: nat, now: nat)
    requires TxnInv(t, now) && ref.ReferenceKey? && Release(t, ref, length).Some?
    ensures TxnInv(Release(t, ref, length).value, now) && Release(t, ref, length).value.base == t.base
  {
    hide Follows;
    if ref in t.view {
      TouchIsSound(t, ref.digest, length, now);
      var t' := Release(t, ref, length).value;
      forall k | k in t'.view && k.ReferenceKey?
        ensures RetainedAt(t'.view, k)
      {
        assert RetainedAt(t.view, k);
      }
      forall digest
        ensures WrittenPayload(t'.base.rows, t'.view, digest, now)
      {
        assert WrittenPayload(t.base.rows, t.view, digest, now);
      }
    }
  }

  lemma ClaimIsSound(t: Txn<Key, Row>, digest: string, oldState: PayloadState, oldToken: nat, owner: string, now: nat, leaseUntil: nat)
    requires TxnInv(t, now) && ClaimExpired(t, digest, oldState, oldToken, owner, now, leaseUntil).Some?
    ensures var t' := ClaimExpired(t, digest, oldState, oldToken, owner, now, leaseUntil).value; TxnInv(t', now) && t'.base == t.base
  {
    var t' := ClaimExpired(t, digest, oldState, oldToken, owner, now, leaseUntil).value;
    forall k | k in t'.view && k.ReferenceKey?
      ensures RetainedAt(t'.view, k)
    {
      assert k.digest != digest;
      assert RetainedAt(t.view, k);
    }
    forall other
      ensures WrittenPayload(t'.base.rows, t'.view, other, now)
    {
      assert WrittenPayload(t.base.rows, t.view, other, now);
    }
  }

  /** Committing rules out write skew: who wrote the payload row still sees all its references. */
  lemma CommitIsRetained(db: Db<Key, Row>, t: Txn<Key, Row>, k: Key, now: nat)
    requires DbInv(db) && TxnInv(t, now) && Later(t.base, db) && NoConflict(db, t)
    requires k in Commit(db, t).rows && k.ReferenceKey?
    ensures RetainedAt(Commit(db, t).rows, k)
  {
    hide Follows, Commit;
    var p := PayloadKey(k.digest);
    CommitAt(db, t, k);
    CommitAt(db, t, p);
    assert LaterAt(t.base, db, k.digest);
    if p in t.writes {
      assert Get(db.rows, k) == Get(t.base.rows, k);
      assert k in t.view;
      assert RetainedAt(t.view, k);
    } else {
      assert k in db.rows;
      assert RetainedAt(db.rows, k);
    }
  }

  lemma CommitIsLater(db: Db<Key, Row>, t: Txn<Key, Row>, now: nat)
    requires DbInv(db) && TxnInv(t, now) && Later(t.base, db) && NoConflict(db, t)
    ensures DbInv(Commit(db, t)) && Later(db, Commit(db, t))
  {
    hide Follows, Commit, RetainedAt;
    var db' := Commit(db, t);
    forall k | k in db'.rows && k.ReferenceKey?
      ensures RetainedAt(db'.rows, k)
    {
      CommitIsRetained(db, t, k, now);
    }
    forall k | k in db'.rows && k.PayloadKey?
      ensures db'.rows[k].PayloadRow?
    {
      CommitAt(db, t, k);
    }
    forall digest
      ensures LaterAt(db, db', digest)
    {
      var p := PayloadKey(digest);
      CommitAt(db, t, p);
      assert LaterAt(t.base, db, digest) && WrittenPayload(t.base.rows, t.view, digest, now);
      if p in db.rows {
        FollowsItself(db.rows[p]);
      }
      forall k: Key | k.ReferenceKey? && k.digest == digest && p !in t.writes
        ensures Get(db'.rows, k) == Get(db.rows, k)
      {
        CommitAt(db, t, k);
      }
    }
  }

  // Every step and every run

  lemma UpdateKeepsInv(s: State, digest: string, row: Option<Row>)
    requires Inv(s) && (row.Some? ==> RowStep(Current(s).rows, digest, row.value))
    ensures Update(s, digest, row).Some? ==> Inv(Update(s, digest, row).value)
  {
    hide RowStep, Later, DbInv, TxnInv;
    if row.Some? {
      WriteIsLater(Current(s), digest, row.value);
      HistoryGrows(s.history, Write(Current(s), PayloadKey(digest), row.value));
    }
  }

  lemma RowUpdatesFollow(s: State, a: Action)
    requires Inv(s)
    ensures a.InsertUploadingRow? || a.RecycleRow? || a.ResumeRow? || a.PublishRow? || a.FinishDeletionRow? ==>
      Next(s, a).Some? ==> Inv(Next(s, a).value)
  {
    hide TxnInv, Later, DbInv;
    var rows := Current(s).rows;
    match a
    case InsertUploadingRow(digest, length, owner, lease) =>
      UpdateKeepsInv(s, digest, InsertUploading(Get(rows, PayloadKey(digest)), length, owner, s.now + lease));
    case RecycleRow(digest, readAt, length, owner, lease) =>
      if readAt < |s.history| {
        var existing := PayloadAt(s.history[readAt].rows, digest);
        LengthStays(s, readAt, digest);
        UpdateKeepsInv(s, digest, Recycle(Get(rows, PayloadKey(digest)), existing, length, owner, s.now + lease));
      }
    case ResumeRow(digest, owner, token, lease) =>
      UpdateKeepsInv(s, digest, ResumeUpload(Get(rows, PayloadKey(digest)), owner, token, s.now + lease));
    case PublishRow(digest, owner, token, lease) =>
      UpdateKeepsInv(s, digest, Publish(Get(rows, PayloadKey(digest)), owner, token, s.now, s.now + lease));
    case FinishDeletionRow(digest, token) =>
      UpdateKeepsInv(s, digest, FinishDeletion(Get(rows, PayloadKey(digest)), token));
    case _ =>
  }

  lemma LengthStays(s: State, i: nat, digest: string)
    requires Inv(s) && i < |s.history|
    ensures var row, current := PayloadAt(s.history[i].rows, digest), PayloadAt(Current(s).rows, digest);
      row.Some? ==> current.Some? && current.value.length == row.value.length
  {
    assert LaterAt(s.history[i], Current(s), digest);
  }

  lemma ActiveGrows(s: State, s': State)
    requires ActiveInv(s) && s.history <= s'.history && s.now <= s'.now
    requires forall id :: id in s'.active ==> id in s.active && s'.active[id] == s.active[id]
    ensures ActiveInv(s')
  {
    hide TxnInv;
    forall id | id in s'.active
      ensures TxnInv(s'.active[id], s'.now) && s'.active[id].base in s'.history
    {
      TimePasses(s.active[id], s.now, s'.now);
      var i :| 0 <= i < |s.history| && s.history[i] == s.active[id].base;
      assert s'.history[i] == s.active[id].base;
    }
  }

  lemma TimePasses(t: Txn<Key, Row>, now: nat, later: nat)
    requires TxnInv(t, now) && now <= later
    ensures TxnInv(t, later)
  {
    hide Follows;
    forall digest
      ensures WrittenPayload(t.base.rows, t.view, digest, later)
    {
      assert WrittenPayload(t.base.rows, t.view, digest, now);
    }
  }

  lemma StatementKeepsInv(s: State, id: nat, t: Option<Txn<Key, Row>>)
    requires Inv(s) && id in s.active
    requires t.Some? ==> TxnInv(t.value, s.now) && t.value.base == s.active[id].base
    ensures Continue(s, id, t).Some? ==> Inv(Continue(s, id, t).value)
  {
    hide TxnInv, HistoryInv;
  }

  lemma TransactionStepsKeepInv(s: State, a: Action)
    requires Inv(s)
    ensures a.BeginTxn? || a.PinIn? || a.ReleaseIn? || a.ClaimIn? ==> Next(s, a).Some? ==> Inv(Next(s, a).value)
  {
    hide Later, DbInv, TxnInv, Pin, Release, ClaimExpired;
    match a
    case BeginTxn(id, snapshot) =>
      if snapshot < |s.history| {
        assert DbInv(s.history[snapshot]);
        BeginIsSound(s.history[snapshot], s.now);
      }
    case PinIn(id, ref, length) =>
      if id in s.active && ref.ReferenceKey? && Pin(s.active[id], ref, length).Some? {
        PinIsSound(s.active[id], ref, length, s.now);
        StatementKeepsInv(s, id, Pin(s.active[id], ref, length));
      }
    case ReleaseIn(id, ref, length) =>
      if id in s.active && ref.ReferenceKey? && Release(s.active[id], ref, length).Some? {
        ReleaseIsSound(s.active[id], ref, length, s.now);
        StatementKeepsInv(s, id, Release(s.active[id], ref, length));
      }
    case ClaimIn(id, digest, oldState, oldToken, owner, lease) =>
      if id in s.active && ClaimExpired(s.active[id], digest, oldState, oldToken, owner, s.now, s.now + lease).Some? {
        ClaimIsSound(s.active[id], digest, oldState, oldToken, owner, s.now, s.now + lease);
        StatementKeepsInv(s, id, ClaimExpired(s.active[id], digest, oldState, oldToken, owner, s.now, s.now + lease));
      }
    case _ =>
  }

  lemma CommitKeepsInv(s: State, id: nat)
    requires Inv(s) && id in s.active && NoConflict(Current(s), s.active[id])
    ensures Inv(Step(s, CommitTxn(id)))
  {
    hide Later, DbInv, TxnInv, NoConflict, Commit;
    var t := s.active[id];
    var i :| 0 <= i < |s.history| && s.history[i] == t.base;
    CommitIsLater(Current(s), t, s.now);
    HistoryGrows(s.history, Commit(Current(s), t));
    var s' := Step(s, CommitTxn(id));
    ActiveGrows(s, s');
  }

  lemma StepKeepsInv(s: State, a: Action)
    requires Inv(s)
    ensures Inv(Step(s, a))
    ensures s.history <= Step(s, a).history
  {
    assert s.history != [];
    hide HistoryInv, Retained, Later, DbInv, TxnInv;
    match a
    case CommitTxn(id) =>
      if Next(s, a).Some? {
        CommitKeepsInv(s, id);
      }
    case AbortTxn(id) =>
      ActiveGrows(s, Step(s, a));
    case Tick(elapsed) =>
      ActiveGrows(s, Step(s, a));
    case _ =>
      RowUpdatesFollow(s, a);
      TransactionStepsKeepInv(s, a);
  }

  lemma InitialIsSound()
    ensures Inv(Initial)
  {
    LaterItself(Empty());
  }

  lemma {:induction false} ExecutionKeepsInv(states: seq<State>, actions: seq<Action>, i: nat)
    requires Execution(states, actions) && i < |states|
    ensures Inv(states[i])
  {
    hide Inv, Step;
    if i == 0 {
      InitialIsSound();
    } else {
      ExecutionKeepsInv(states, actions, i - 1);
      assert StepAt(states, actions, i - 1);
      StepKeepsInv(states[i - 1], actions[i - 1]);
    }
  }

  lemma {:induction false} ExecutionGrows(states: seq<State>, actions: seq<Action>, i: nat, j: nat)
    requires Execution(states, actions) && i <= j < |states|
    ensures states[i].history <= states[j].history
    decreases j
  {
    hide Inv, Step;
    if i < j {
      ExecutionGrows(states, actions, i, j - 1);
      ExecutionKeepsInv(states, actions, j - 1);
      assert StepAt(states, actions, j - 1);
      StepKeepsInv(states[j - 1], actions[j - 1]);
    }
  }

  // Main results

  function RowsOf(s: State): Rows {
    if s.history == [] then map[] else Current(s).rows
  }

  /**
   * Retention: in every state of every run of publishing, pinning, releasing, collecting and recycling by any number
   * of nodes, with crashes and lost replies, an existing reference is to a ready payload of its length.
   */
  lemma ReferencesAreRetained(states: seq<State>, actions: seq<Action>, i: nat, ref: Key)
    requires Execution(states, actions) && i < |states| && ref.ReferenceKey? && ref in RowsOf(states[i])
    ensures RetainedAt(RowsOf(states[i]), ref)
  {
    hide Execution, RetainedAt, Later;
    ExecutionKeepsInv(states, actions, i);
    assert DbInv(Current(states[i]));
  }

  /** A payload row never disappears, keeps its length, and its token and its generation's state only advance. */
  lemma GenerationsAdvance(states: seq<State>, actions: seq<Action>, i: nat, j: nat, digest: string)
    requires Execution(states, actions) && i <= j < |states| && PayloadKey(digest) in RowsOf(states[i])
    ensures PayloadKey(digest) in RowsOf(states[j])
    ensures Follows(RowsOf(states[i])[PayloadKey(digest)], RowsOf(states[j])[PayloadKey(digest)])
  {
    hide Execution, Follows;
    ExecutionKeepsInv(states, actions, i);
    ExecutionKeepsInv(states, actions, j);
    ExecutionGrows(states, actions, i, j);
    assert states[j].history[|states[i].history| - 1] == Current(states[i]);
    assert LaterAt(Current(states[i]), Current(states[j]), digest);
  }

  /** What a collector may remove once it saw its claim is never a payload that is live or referenced later. */
  lemma ClaimedGenerationStaysDead(states: seq<State>, actions: seq<Action>, i: nat, j: nat, digest: string)
    requires Execution(states, actions) && i <= j < |states|
    requires PayloadAt(RowsOf(states[i]), digest).Some? && PayloadAt(RowsOf(states[i]), digest).value.state == Deleting
    ensures var claimed, row := PayloadAt(RowsOf(states[i]), digest).value, PayloadAt(RowsOf(states[j]), digest);
      && row.Some?
      && (row.value.token > claimed.token ||
          (row.value.token == claimed.token && !Live(row.value.state) && !Referenced(RowsOf(states[j]), digest)))
  {
    hide Execution;
    GenerationsAdvance(states, actions, i, j, digest);
    ExecutionKeepsInv(states, actions, j);
    var rows := RowsOf(states[j]);
    assert DbInv(Current(states[j]));
    var row := PayloadAt(rows, digest).value;
    if row.state != Ready {
      forall k | k in rows && k.ReferenceKey?
        ensures k.digest != digest
      {
        assert RetainedAt(rows, k);
      }
    }
  }

  /** No single step takes an upload or a published payload away before its lease has expired. */
  lemma LeasedPayloadIsNotClaimed(states: seq<State>, actions: seq<Action>, i: nat, digest: string)
    requires Execution(states, actions) && i < |actions|
    requires var row := PayloadAt(RowsOf(states[i]), digest);
      row.Some? && Live(row.value.state) && row.value.leaseUntil > states[i].now
    ensures var row, row' := PayloadAt(RowsOf(states[i]), digest), PayloadAt(RowsOf(states[i + 1]), digest);
      row'.Some? && Live(row'.value.state) && row'.value.token == row.value.token
  {
    hide Inv, Step, Live;
    ExecutionKeepsInv(states, actions, i);
    assert StepAt(states, actions, i);
    hide Execution, StepAt;
    LeasedPayloadStep(states[i], actions[i], digest);
  }

  lemma LeasedPayloadStep(s: State, a: Action, digest: string)
    requires Inv(s) && PayloadAt(RowsOf(s), digest).Some?
    requires Live(PayloadAt(RowsOf(s), digest).value.state) && PayloadAt(RowsOf(s), digest).value.leaseUntil > s.now
    ensures var row, row' := PayloadAt(RowsOf(s), digest), PayloadAt(RowsOf(Step(s, a)), digest);
      row'.Some? && Live(row'.value.state) && row'.value.token == row.value.token
  {
    assert s.history != [];
    if a.CommitTxn? && Next(s, a).Some? {
      CommittedPayload(s, a.id, digest);
    }
    hide Inv, HistoryInv, ActiveInv, Commit, Pin, Release, ClaimExpired;
  }

  lemma CommittedPayload(s: State, id: nat, digest: string)
    requires Inv(s) && Next(s, CommitTxn(id)).Some? && PayloadAt(Current(s).rows, digest).Some?
    ensures var row, row' := PayloadAt(Current(s).rows, digest), PayloadAt(Current(Step(s, CommitTxn(id))).rows, digest);
      row'.Some? && (row' == row || (row'.value.state == Deleting && row.value.leaseUntil <= s.now))
  {
    hide Commit, Retained, Follows;
    var t := s.active[id];
    var p := PayloadKey(digest);
    assert t.base in s.history;
    var i :| 0 <= i < |s.history| && s.history[i] == t.base;
    assert LaterAt(t.base, Current(s), digest);
    assert WrittenPayload(t.base.rows, t.view, digest, s.now);
    CommitAt(Current(s), t, p);
    assert PayloadsTyped(t.view);
  }
}
