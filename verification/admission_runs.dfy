/** Admissions by any number of callers under snapshot isolation (pkg/storage/mongodb/admission.go). */
module AdmissionRuns {
  import opened Admission
  import opened AdmissionPlan
  import opened Snapshot
  import opened Wrappers

  /**
   * A body in a transaction; `txn` is what it wrote once its plan was accepted. It began, checked its plan and wrote
   * its effects at the three times.
   */
  datatype Body = Body(plan: Plan, base: Db<Key, Row>, txn: Option<Txn<Key, Row>>, begunAt: nat, checkedAt: nat, writtenAt: nat)

  /** What changed rows: a committed plan, or a write of somebody else. */
  datatype Event = Admitted(plan: Plan) | Foreign(key: Key, row: Row)

  /**
   * `history` holds every state the database has had, the current one last; `log` the plans committed so far, and
   * `events` all writes in the order they took effect.
   */
  datatype State = State(now: nat, history: seq<Db<Key, Row>>, active: map<nat, Body>, log: seq<Plan>, events: seq<Event>)

  /** Leases and read versions belong to others, who may write them in any way. */
  datatype Action =
    | Tick(elapsed: nat)
    | EnsureHistoryFence(topic: string, fence: Fence)
    | PutLease(topic: string, peerID: string, jobID: string, fence: Fence, token: nat, expiresAt: nat)
    | PutRead(topic: string, key: string, readVersion: string)
    | BeginPlan(id: nat, plan: Plan, snapshot: nat)
    | ApplyPlan(id: nat, txn: Txn<Key, Row>, checkedAt: nat)
    | CommitPlan(id: nat)
    | AbortPlan(id: nat)

  const Initial: State := State(0, [Empty()], map[], [], [])

  function Current(s: State): Db<Key, Row>
    requires s.history != []
  {
    s.history[|s.history| - 1]
  }

  function WriteRow(s: State, k: Key, r: Row): State
    requires s.history != []
  {
    s.(history := s.history + [Write(Current(s), k, r)], events := s.events + [Foreign(k, r)])
  }

  /** What ApplyAdmission can do with a body: its contract is the condition. */
  ghost predicate MayApply(s: State, b: Body, txn: Txn<Key, Row>, checkedAt: nat) {
    && b.begunAt <= checkedAt <= s.now
    && Admissible(b.base.rows, b.plan, checkedAt, s.now)
    && txn.base == b.base && PlanEffect(txn, b.plan)
  }

  /** The state after an action; an action that cannot happen changes nothing. */
  ghost function Step(s: State, a: Action): (s': State)
    requires s.history != []
    ensures s'.history != []
  {
    match a
    case Tick(elapsed) => s.(now := s.now + elapsed)
    case EnsureHistoryFence(topic, fence) =>
      if FenceKey(topic) in Current(s).rows then s else WriteRow(s, FenceKey(topic), FenceRow(fence, 0, ""))
    case PutLease(topic, peerID, jobID, fence, token, expiresAt) =>
      WriteRow(s, LeaseKey(topic, peerID, jobID), LeaseRow(fence, token, expiresAt))
    case PutRead(topic, key, readVersion) => WriteRow(s, ReadKey(topic, key), ReadRow(readVersion))
    case BeginPlan(id, plan, snapshot) =>
      if id in s.active || snapshot >= |s.history| then s
      else s.(active := s.active[id := Body(plan, s.history[snapshot], None, s.now, s.now, s.now)])
    case ApplyPlan(id, txn, checkedAt) =>
      if id in s.active && MayApply(s, s.active[id], txn, checkedAt)
      then s.(active := s.active[id := s.active[id].(txn := Some(txn), checkedAt := checkedAt, writtenAt := s.now)]) else s
    case CommitPlan(id) =>
      if CanCommit(s, id)
      then
        var b := s.active[id];
        s.(history := s.history + [Commit(Current(s), b.txn.value)], active := s.active - {id}, log := s.log + [b.plan],
            events := s.events + [Admitted(b.plan)])
      else s
    case AbortPlan(id) => s.(active := s.active - {id})
  }

  predicate CanCommit(s: State, id: nat) {
    s.history != [] && id in s.active && s.active[id].txn.Some? && NoConflict(Current(s), s.active[id].txn.value)
  }

  ghost predicate StepAt(states: seq<State>, actions: seq<Action>, i: nat)
    requires i < |actions| && |states| == |actions| + 1
  {
    states[i].history != [] && states[i + 1] == Step(states[i], actions[i])
  }

  /** A run from the initial state; an action that does not apply changes nothing. */
  ghost predicate Execution(states: seq<State>, actions: seq<Action>) {
    && |states| == |actions| + 1 && states[0] == Initial
    && forall i :: 0 <= i < |actions| ==> StepAt(states, actions, i)
  }

  // What every step keeps

  predicate OutputOk(rows: Rows, topic: string, o: Outpoint) {
    var k := OutputKey(topic, o);
    k in rows ==>
      && rows[k].OutputRow?
      && AppliedKey(topic, o.txid) in rows
      && (rows[k].spent <==> rows[k].spentBy.Some?)
      && (rows[k].spent ==> AppliedKey(topic, rows[k].spentBy.value) in rows)
  }

  ghost predicate RowsInv(rows: Rows) {
    && EdgesTyped(rows)
    && (forall topic, o :: OutputOk(rows, topic, o))
    && (forall topic :: FenceOk(rows, topic))
  }

  predicate FenceOk(rows: Rows, topic: string) {
    FenceKey(topic) in rows ==> rows[FenceKey(topic)].FenceRow?
  }

  ghost predicate LaterAt(before: Db<Key, Row>, after: Db<Key, Row>, k: Key) {
    && Version(before, k) <= Version(after, k)
    && (Version(before, k) == Version(after, k) ==> Get(before.rows, k) == Get(after.rows, k))
    && (k.AppliedKey? || k.EdgeKey? ==> k in before.rows ==> k in after.rows)
    && (k.FenceKey? && k in before.rows ==> k in after.rows && FenceAdvances(before.rows[k], after.rows[k]))
  }

  /** A fence keeps its epoch and its generation never falls. */
  predicate FenceAdvances(before: Row, after: Row) {
    && before.FenceRow? && after.FenceRow?
    && before.fence.chainEpoch == after.fence.chainEpoch
    && before.fence.generation <= after.fence.generation
  }

  ghost predicate Later(before: Db<Key, Row>, after: Db<Key, Row>) {
    forall k :: LaterAt(before, after, k)
  }

  ghost predicate HistoryInv(history: seq<Db<Key, Row>>) {
    && history != []
    && (forall i :: 0 <= i < |history| ==> RowsInv(history[i].rows))
    && (forall i :: 0 <= i < |history| ==> Later(history[i], history[|history| - 1]))
  }

  /** A plan was accepted on some state the database has had. */
  ghost predicate WasAdmissible(history: seq<Db<Key, Row>>, plan: Plan) {
    exists i, checkedAt: nat, writtenAt: nat ::
      0 <= i < |history| && checkedAt <= writtenAt && Admissible(history[i].rows, plan, checkedAt, writtenAt)
  }

  ghost predicate BodyInv(s: State, b: Body) {
    && b.base in s.history && b.begunAt <= s.now
    && (b.txn.Some? ==>
          && b.txn.value.base == b.base && PlanEffect(b.txn.value, b.plan)
          && b.begunAt <= b.checkedAt <= b.writtenAt <= s.now
          && Admissible(b.base.rows, b.plan, b.checkedAt, b.writtenAt))
  }

  ghost predicate ActiveInv(s: State) {
    forall id :: id in s.active ==> BodyInv(s, s.active[id])
  }

  /** Applied for good, and each spent output is spent by this plan or gone. */
  ghost predicate Recorded(rows: Rows, plan: Plan, d: Decision) {
    && AppliedKey(d.topic, plan.txid) in rows
    && forall i :: 0 <= i < |d.spends| ==> SpendRecorded(rows, plan.txid, d.topic, d.spends[i].outpoint)
  }

  predicate SpendRecorded(rows: Rows, txid: string, topic: string, o: Outpoint) {
    && AppliedKey(topic, o.txid) in rows
    && (OutputKey(topic, o) in rows ==> rows[OutputKey(topic, o)].OutputRow? && rows[OutputKey(topic, o)].spentBy == Some(txid))
  }

  /** Two plans neither apply one transaction to one topic nor spend one output of a topic. */
  ghost predicate Apart(d: Decision, txid: string, e: Decision, txid': string) {
    d.topic == e.topic ==>
      && txid != txid'
      && forall i, j :: 0 <= i < |d.spends| && 0 <= j < |e.spends| ==> d.spends[i].outpoint != e.spends[j].outpoint
  }

  ghost predicate PlansApart(p: Plan, q: Plan) {
    forall i, j :: 0 <= i < |p.decisions| && 0 <= j < |q.decisions| ==>
      Apart(p.decisions[i], p.txid, q.decisions[j], q.txid)
  }

  ghost predicate PlanRecorded(rows: Rows, p: Plan) {
    forall i :: 0 <= i < |p.decisions| ==> Recorded(rows, p, p.decisions[i])
  }

  ghost predicate LogInv(s: State)
    requires s.history != []
  {
    && (forall i :: 0 <= i < |s.log| ==> PlanRecorded(Current(s).rows, s.log[i]) && WasAdmissible(s.history, s.log[i]))
    && (forall i, j :: 0 <= i < j < |s.log| ==> PlansApart(s.log[i], s.log[j]))
  }

  ghost predicate Inv(s: State) {
    HistoryInv(s.history) && ActiveInv(s) && LogInv(s)
  }

  // Later states

  lemma LaterIsTransitive(a: Db<Key, Row>, b: Db<Key, Row>, c: Db<Key, Row>)
    requires Later(a, b) && Later(b, c)
    ensures Later(a, c)
  {
    forall k
      ensures LaterAt(a, c, k)
    {
      assert LaterAt(a, b, k) && LaterAt(b, c, k);
    }
  }

  lemma LaterItself(db: Db<Key, Row>)
    requires RowsInv(db.rows)
    ensures Later(db, db)
  {
    forall k
      ensures LaterAt(db, db, k)
    {
      if k.FenceKey? {
        assert FenceOk(db.rows, k.topic);
      }
    }
  }

  lemma HistoryGrows(history: seq<Db<Key, Row>>, db: Db<Key, Row>)
    requires HistoryInv(history) && RowsInv(db.rows) && Later(history[|history| - 1], db)
    ensures HistoryInv(history + [db])
  {
    hide Later, RowsInv;
    var grown := history + [db];
    forall i | 0 <= i < |grown|
      ensures RowsInv(grown[i].rows) && Later(grown[i], db)
    {
      if i < |history| {
        LaterIsTransitive(history[i], history[|history| - 1], db);
      } else {
        LaterItself(db);
      }
    }
  }

  // Commits

  /** Facts about a committing body: what it wrote is exactly its plan's effect on the current rows. */
  ghost predicate Committing(db: Db<Key, Row>, t: Txn<Key, Row>, plan: Plan) {
    && RowsInv(db.rows) && RowsInv(t.base.rows) && Later(t.base, db) && NoConflict(db, t)
    && PlanEffect(t, plan)
    && exists checkedAt: nat, writtenAt: nat :: Admissible(t.base.rows, plan, checkedAt, writtenAt)
  }

  /** Nobody wrote a row that the decision touches since the snapshot, so its effect is on the current rows. */
  lemma DecidedRow(db: Db<Key, Row>, t: Txn<Key, Row>, plan: Plan, i: nat, k: Key)
    requires Committing(db, t, plan) && i < |plan.decisions| && KeyTopic(k) == Some(plan.decisions[i].topic)
    ensures Touches(plan.decisions[i], k) ==> Get(db.rows, k) == Get(t.base.rows, k)
    ensures Get(Commit(db, t).rows, k) == RowAfter(Get(db.rows, k), plan.decisions[i], plan.txid, k)
  {
    hide Commit, Touches, OutputOk, FenceOk, RowAfter, FenceAdvances;
    var d := plan.decisions[i];
    CommitAt(db, t, k);
    assert LaterAt(t.base, db, k);
    assert DoneAt(t, d, plan.txid, k);
    if !Touches(d, k) {
      UntouchedRow(Get(db.rows, k), d, plan.txid, k);
      UntouchedRow(Get(t.base.rows, k), d, plan.txid, k);
    }
  }

  /** A decision leaves a row that it does not touch, or makes it an edge. */
  lemma UntouchedRow(row: Option<Row>, d: Decision, txid: string, k: Key)
    requires !Touches(d, k) || k.EdgeKey?
    ensures RowAfter(row, d, txid, k) == if k.EdgeKey? && Links(d, |d.edges|, k) then Some(EdgeRow) else row
    ensures k.EdgeKey? ==> !Touches(d, k)
    ensures Links(d, |d.edges|, k) ==> k.EdgeKey?
  {
  }

  lemma UndecidedRow(db: Db<Key, Row>, t: Txn<Key, Row>, plan: Plan, k: Key)
    requires Committing(db, t, plan) && !Decides(plan, |plan.decisions|, KeyTopic(k))
    ensures Get(Commit(db, t).rows, k) == if OutboxNames(plan, |plan.outbox|, k) then Some(OutboxRow) else Get(db.rows, k)
    ensures !k.OutboxKey? ==> !OutboxNames(plan, |plan.outbox|, k)
  {
    hide Commit, RowsInv;
    CommitAt(db, t, k);
  }

  lemma DecisionFacts(t: Txn<Key, Row>, plan: Plan, i: nat)
    requires i < |plan.decisions|
    requires exists checkedAt: nat, writtenAt: nat :: Admissible(t.base.rows, plan, checkedAt, writtenAt)
    ensures var d := plan.decisions[i];
      && d.applied == plan.txid && OutputsAre(d, plan.txid) && HandoffOnTopic(d)
      && AppliedKey(d.topic, plan.txid) !in t.base.rows && FenceIs(t.base.rows, d.topic, d.expected)
      && (d.update.Some? ==> d.update.value.nextGeneration > d.expected.generation)
  {
    hide Writable;
    var checkedAt: nat, writtenAt: nat :| Admissible(t.base.rows, plan, checkedAt, writtenAt);
    assert DecisionShape(plan.decisions[i], plan.txid);
    assert DecisionValid(t.base.rows, plan.decisions[i], plan.txid, checkedAt);
  }

  lemma AppliedStays(db: Db<Key, Row>, t: Txn<Key, Row>, plan: Plan, topic: string, txid: string)
    requires Committing(db, t, plan)
    ensures AppliedKey(topic, txid) in db.rows ==> AppliedKey(topic, txid) in Commit(db, t).rows
    ensures forall i :: 0 <= i < |plan.decisions| && plan.decisions[i].topic == topic ==>
      AppliedKey(topic, plan.txid) in Commit(db, t).rows && AppliedKey(topic, plan.txid) !in db.rows
  {
    hide Commit, Committing, PlanEffect;
    var k := AppliedKey(topic, txid);
    forall i | 0 <= i < |plan.decisions| && plan.decisions[i].topic == topic
      ensures AppliedKey(topic, plan.txid) in Commit(db, t).rows && AppliedKey(topic, plan.txid) !in db.rows
      ensures k in db.rows ==> k in Commit(db, t).rows
    {
      assert exists checkedAt: nat, writtenAt: nat :: Admissible(t.base.rows, plan, checkedAt, writtenAt) by {
        CommittingIsAdmissible(db, t, plan);
      }
      DecisionFacts(t, plan, i);
      DecidedRow(db, t, plan, i, AppliedKey(topic, plan.txid));
      DecidedRow(db, t, plan, i, k);
      assert Touches(plan.decisions[i], AppliedKey(topic, plan.txid));
    }
    if !Decides(plan, |plan.decisions|, KeyTopic(k)) {
      UndecidedRow(db, t, plan, k);
    }
  }

  lemma CommittingIsAdmissible(db: Db<Key, Row>, t: Txn<Key, Row>, plan: Plan)
    requires Committing(db, t, plan)
    ensures exists checkedAt: nat, writtenAt: nat :: Admissible(t.base.rows, plan, checkedAt, writtenAt)
    ensures RowsInv(db.rows) && Later(t.base, db)
  {
  }

  lemma OutputStays(db: Db<Key, Row>, t: Txn<Key, Row>, plan: Plan, topic: string, o: Outpoint)
    requires Committing(db, t, plan)
    ensures OutputOk(Commit(db, t).rows, topic, o)
  {
    hide Commit, Committing, PlanEffect, RowsInv, Touches, Later, Admissible;
    CommittingIsAdmissible(db, t, plan);
    var k := OutputKey(topic, o);
    OutputIsOk(db.rows, topic, o);
    AppliedStays(db, t, plan, topic, o.txid);
    if k in db.rows && db.rows[k].spentBy.Some? {
      AppliedStays(db, t, plan, topic, db.rows[k].spentBy.value);
    }
    if i :| 0 <= i < |plan.decisions| && plan.decisions[i].topic == topic {
      DecidedRow(db, t, plan, i, k);
      DecisionFacts(t, plan, i);
      AppliedStays(db, t, plan, topic, plan.txid);
    } else {
      UndecidedRow(db, t, plan, k);
    }
  }

  lemma OutputIsOk(rows: Rows, topic: string, o: Outpoint)
    requires RowsInv(rows)
    ensures OutputOk(rows, topic, o)
  {
  }

  lemma FenceStays(db: Db<Key, Row>, t: Txn<Key, Row>, plan: Plan, topic: string)
    requires Committing(db, t, plan)
    ensures FenceOk(Commit(db, t).rows, topic)
    ensures var k := FenceKey(topic);
      k in db.rows ==> k in Commit(db, t).rows && FenceAdvances(db.rows[k], Commit(db, t).rows[k])
  {
    hide Commit, PlanEffect, Later, Admissible, EdgesTyped, OutputOk;
    var k := FenceKey(topic);
    assert FenceOk(db.rows, topic) && FenceOk(t.base.rows, topic);
    if i :| 0 <= i < |plan.decisions| && plan.decisions[i].topic == topic {
      DecidedRow(db, t, plan, i, k);
      DecisionFacts(t, plan, i);
    } else {
      UndecidedRow(db, t, plan, k);
    }
  }

  lemma CommitIsLater(db: Db<Key, Row>, t: Txn<Key, Row>, plan: Plan)
    requires Committing(db, t, plan)
    ensures RowsInv(Commit(db, t).rows) && Later(db, Commit(db, t))
  {
    hide Commit, Committing, FenceAdvances, OutputOk, FenceOk;
    var db' := Commit(db, t);
    forall topic, o
      ensures OutputOk(db'.rows, topic, o)
    {
      OutputStays(db, t, plan, topic, o);
    }
    forall topic
      ensures FenceOk(db'.rows, topic)
    {
      FenceStays(db, t, plan, topic);
    }
    forall k: Key | k.EdgeKey?
      ensures Get(db'.rows, k) == None || Get(db'.rows, k) == Some(EdgeRow)
    {
      EdgeStays(db, t, plan, k);
    }
    forall k
      ensures LaterAt(db, db', k)
    {
      CommitAt(db, t, k);
      if k.AppliedKey? {
        AppliedStays(db, t, plan, k.topic, k.txid);
      } else if k.FenceKey? {
        FenceStays(db, t, plan, k.topic);
      } else if k.EdgeKey? {
        EdgeStays(db, t, plan, k);
      }
    }
  }

  lemma EdgeStays(db: Db<Key, Row>, t: Txn<Key, Row>, plan: Plan, k: Key)
    requires Committing(db, t, plan) && k.EdgeKey?
    ensures Get(Commit(db, t).rows, k) == Get(db.rows, k) || Get(Commit(db, t).rows, k) == Some(EdgeRow)
    ensures Get(db.rows, k) == None || Get(db.rows, k) == Some(EdgeRow)
  {
    hide Commit, Committing, Touches;
    CommittingIsAdmissible(db, t, plan);
    assert EdgesTyped(db.rows);
    if i :| 0 <= i < |plan.decisions| && plan.decisions[i].topic == k.topic {
      DecidedRow(db, t, plan, i, k);
      UntouchedRow(Get(db.rows, k), plan.decisions[i], plan.txid, k);
    } else {
      UndecidedRow(db, t, plan, k);
    }
  }

  // The log of committed plans

  /** A spend of a committing plan finds the output there and unspent. */
  lemma SpendFindsOutput(t: Txn<Key, Row>, plan: Plan, i: nat, j: nat)
    requires i < |plan.decisions| && j < |plan.decisions[i].spends|
    requires exists checkedAt: nat, writtenAt: nat :: Admissible(t.base.rows, plan, checkedAt, writtenAt)
    ensures var d := plan.decisions[i];
      var k := OutputKey(d.topic, d.spends[j].outpoint);
      && k in t.base.rows && t.base.rows[k].OutputRow? && t.base.rows[k].spentBy.None?
      && Touches(d, k) && (Evicts(d, |d.evictions|, k) || Spends(d, |d.spends|, k)) && !Inserts(d, |d.outputs|, k)
  {
    hide Writable;
    var checkedAt: nat, writtenAt: nat :| Admissible(t.base.rows, plan, checkedAt, writtenAt);
    var d := plan.decisions[i];
    assert DecisionValid(t.base.rows, d, plan.txid, checkedAt);
    assert SpendValid(t.base.rows, d.topic, d.spends[j]);
  }

  /** Records of plans committed before survive: a spent output stays spent by its spender or goes. */
  lemma RecordStays(db: Db<Key, Row>, t: Txn<Key, Row>, plan: Plan, txid: string, topic: string, o: Outpoint)
    requires Committing(db, t, plan) && SpendRecorded(db.rows, txid, topic, o)
    ensures SpendRecorded(Commit(db, t).rows, txid, topic, o)
  {
    hide Commit, Committing, PlanEffect, RowsInv, Later, Admissible;
    CommittingIsAdmissible(db, t, plan);
    var k := OutputKey(topic, o);
    AppliedStays(db, t, plan, topic, o.txid);
    if i :| 0 <= i < |plan.decisions| && plan.decisions[i].topic == topic {
      var d := plan.decisions[i];
      DecidedRow(db, t, plan, i, k);
      DecisionFacts(t, plan, i);
      if Spends(d, |d.spends|, k) {
        var j :| 0 <= j < |d.spends| && k == OutputKey(d.topic, d.spends[j].outpoint);
        SpendFindsOutput(t, plan, i, j);
      }
    } else {
      UndecidedRow(db, t, plan, k);
    }
  }

  /** The committing plan applies nothing and spends nothing that a plan before it did. */
  lemma CommittingIsApart(db: Db<Key, Row>, t: Txn<Key, Row>, plan: Plan, before: Plan)
    requires Committing(db, t, plan) && PlanRecorded(db.rows, before)
    ensures PlansApart(before, plan)
  {
    hide Commit, Committing, PlanEffect, RowsInv, Later, Admissible, Touches;
    CommittingIsAdmissible(db, t, plan);
    forall i, j | 0 <= i < |before.decisions| && 0 <= j < |plan.decisions|
      ensures Apart(before.decisions[i], before.txid, plan.decisions[j], plan.txid)
    {
      var d, e := before.decisions[i], plan.decisions[j];
      if d.topic == e.topic {
        assert Recorded(db.rows, before, d);
        AppliedStays(db, t, plan, d.topic, before.txid);
        forall m, n | 0 <= m < |d.spends| && 0 <= n < |e.spends|
          ensures d.spends[m].outpoint != e.spends[n].outpoint
        {
          assert SpendRecorded(db.rows, before.txid, d.topic, d.spends[m].outpoint);
          SpendFindsOutput(t, plan, j, n);
          DecidedRow(db, t, plan, j, OutputKey(e.topic, e.spends[n].outpoint));
        }
      }
    }
  }

  lemma CommittingIsRecorded(db: Db<Key, Row>, t: Txn<Key, Row>, plan: Plan)
    requires Committing(db, t, plan)
    ensures PlanRecorded(Commit(db, t).rows, plan)
  {
    hide Commit, Committing, PlanEffect, RowsInv, Later, Admissible;
    CommittingIsAdmissible(db, t, plan);
    forall i | 0 <= i < |plan.decisions|
      ensures Recorded(Commit(db, t).rows, plan, plan.decisions[i])
    {
      var d := plan.decisions[i];
      AppliedStays(db, t, plan, d.topic, plan.txid);
      DecisionFacts(t, plan, i);
      forall j | 0 <= j < |d.spends|
        ensures SpendRecorded(Commit(db, t).rows, plan.txid, d.topic, d.spends[j].outpoint)
      {
        var k := OutputKey(d.topic, d.spends[j].outpoint);
        SpendFindsOutput(t, plan, i, j);
        DecidedRow(db, t, plan, i, k);
        OutputIsOk(db.rows, d.topic, d.spends[j].outpoint);
        AppliedStays(db, t, plan, d.topic, d.spends[j].outpoint.txid);
        assert Spends(d, |d.spends|, k);
      }
    }
  }

  lemma PlanStaysRecorded(db: Db<Key, Row>, t: Txn<Key, Row>, plan: Plan, before: Plan)
    requires Committing(db, t, plan) && PlanRecorded(db.rows, before)
    ensures PlanRecorded(Commit(db, t).rows, before)
  {
    hide Commit, Committing, SpendRecorded;
    forall i | 0 <= i < |before.decisions|
      ensures Recorded(Commit(db, t).rows, before, before.decisions[i])
    {
      var d := before.decisions[i];
      assert Recorded(db.rows, before, d);
      AppliedStays(db, t, plan, d.topic, before.txid);
      forall j | 0 <= j < |d.spends|
        ensures SpendRecorded(Commit(db, t).rows, before.txid, d.topic, d.spends[j].outpoint)
      {
        RecordStays(db, t, plan, before.txid, d.topic, d.spends[j].outpoint);
      }
    }
  }

  // Every step and every run

  lemma ActiveStays(s: State, s': State)
    requires ActiveInv(s) && s.history <= s'.history && s.now <= s'.now
    requires forall id :: id in s'.active ==> id in s.active && s'.active[id] == s.active[id]
    ensures ActiveInv(s')
  {
    hide PlanEffect, Admissible;
    forall id | id in s'.active
      ensures BodyInv(s', s'.active[id])
    {
      var b := s.active[id];
      assert BodyInv(s, b);
      var i :| 0 <= i < |s.history| && s.history[i] == b.base;
      assert s'.history[i] == b.base;
    }
  }

  lemma StaysAdmissible(history: seq<Db<Key, Row>>, history': seq<Db<Key, Row>>, plan: Plan)
    requires WasAdmissible(history, plan) && history <= history'
    ensures WasAdmissible(history', plan)
  {
    hide Admissible;
    var i, checkedAt: nat, writtenAt: nat :|
      0 <= i < |history| && checkedAt <= writtenAt && Admissible(history[i].rows, plan, checkedAt, writtenAt);
    assert Admissible(history'[i].rows, plan, checkedAt, writtenAt);
  }

  /** Fences, leases and read versions are none of the rows that plans are recorded in. */
  lemma ForeignWriteKeepsInv(s: State, k: Key, r: Row)
    requires Inv(s)
    requires k.LeaseKey? || k.ReadKey? || (k.FenceKey? && r.FenceRow? && k !in Current(s).rows)
    ensures Inv(WriteRow(s, k, r))
  {
    hide PlanEffect, Admissible, WasAdmissible, BodyInv, PlansApart;
    var db := Current(s);
    var db' := Write(db, k, r);
    var s' := WriteRow(s, k, r);
    assert RowsInv(db.rows);
    forall topic, o
      ensures OutputOk(db'.rows, topic, o)
    {
      assert OutputOk(db.rows, topic, o);
    }
    forall topic
      ensures FenceOk(db'.rows, topic)
    {
      assert FenceOk(db.rows, topic);
    }
    forall x: Key | x.EdgeKey?
      ensures Get(db'.rows, x) == None || Get(db'.rows, x) == Some(EdgeRow)
    {
      assert Get(db'.rows, x) == Get(db.rows, x);
    }
    forall x
      ensures LaterAt(db, db', x)
    {
      WriteAt(db, k, r, x);
      if x.FenceKey? {
        assert FenceOk(db.rows, x.topic);
      }
    }
    HistoryGrows(s.history, db');
    ActiveStays(s, s');
    forall i | 0 <= i < |s'.log|
      ensures PlanRecorded(Current(s').rows, s'.log[i]) && WasAdmissible(s'.history, s'.log[i])
    {
      StaysAdmissible(s.history, s'.history, s.log[i]);
      ForeignWriteKeepsRecord(db, k, r, s.log[i]);
    }
  }

  lemma ForeignWriteKeepsRecord(db: Db<Key, Row>, k: Key, r: Row, plan: Plan)
    requires PlanRecorded(db.rows, plan) && (k.LeaseKey? || k.ReadKey? || k.FenceKey?)
    ensures PlanRecorded(Write(db, k, r).rows, plan)
  {
    forall i | 0 <= i < |plan.decisions|
      ensures Recorded(Write(db, k, r).rows, plan, plan.decisions[i])
    {
      assert Recorded(db.rows, plan, plan.decisions[i]);
    }
  }

  lemma CommitKeepsInv(s: State, id: nat)
    requires Inv(s) && CanCommit(s, id)
    ensures Inv(Step(s, CommitPlan(id)))
    ensures Committing(Current(s), s.active[id].txn.value, s.active[id].plan)
  {
    hide PlanEffect, Admissible, RowsInv, Later, PlanRecorded, PlansApart, Commit, NoConflict, WasAdmissible;
    var b := s.active[id];
    var t := b.txn.value;
    var s' := Step(s, CommitPlan(id));
    assert BodyInv(s, b);
    var n :| 0 <= n < |s.history| && s.history[n] == b.base;
    var db := Current(s);
    assert Committing(db, t, b.plan);
    CommitIsLater(db, t, b.plan);
    HistoryGrows(s.history, Commit(db, t));
    ActiveStays(s, s');
    forall i | 0 <= i < |s'.log|
      ensures PlanRecorded(Current(s').rows, s'.log[i]) && WasAdmissible(s'.history, s'.log[i])
    {
      if i < |s.log| {
        StaysAdmissible(s.history, s'.history, s.log[i]);
        PlanStaysRecorded(db, t, b.plan, s.log[i]);
      } else {
        CommittingIsRecorded(db, t, b.plan);
        AdmissibleAt(s'.history, n, b.plan);
      }
    }
    forall i, j | 0 <= i < j < |s'.log|
      ensures PlansApart(s'.log[i], s'.log[j])
    {
      if j == |s.log| {
        CommittingIsApart(db, t, b.plan, s.log[i]);
      }
    }
  }

  lemma AdmissibleAt(history: seq<Db<Key, Row>>, n: nat, plan: Plan)
    requires n < |history|
    requires exists checkedAt: nat, writtenAt: nat ::
      checkedAt <= writtenAt && Admissible(history[n].rows, plan, checkedAt, writtenAt)
    ensures WasAdmissible(history, plan)
  {
    hide Admissible;
  }

  lemma BodyReplaced(s: State, id: nat, b: Body)
    requires Inv(s) && BodyInv(s, b)
    ensures Inv(s.(active := s.active[id := b]))
  {
    hide HistoryInv, PlanEffect, Admissible, PlanRecorded, PlansApart, WasAdmissible;
    var s' := s.(active := s.active[id := b]);
    forall x | x in s'.active
      ensures BodyInv(s', s'.active[x])
    {
      if x != id {
        assert BodyInv(s, s.active[x]);
      }
    }
  }

  lemma BodyStepsKeepInv(s: State, a: Action)
    requires Inv(s) && (a.BeginPlan? || a.ApplyPlan?)
    ensures Inv(Step(s, a))
  {
    assert s.history != [];
    hide HistoryInv, LogInv, PlanEffect, Admissible, Inv;
    match a
    case BeginPlan(id, plan, snapshot) =>
      if id !in s.active && snapshot < |s.history| {
        BodyReplaced(s, id, Body(plan, s.history[snapshot], None, s.now, s.now, s.now));
      }
    case ApplyPlan(id, txn, checkedAt) =>
      if id in s.active && MayApply(s, s.active[id], txn, checkedAt) {
        BodyIsSound(s, id);
        BodyReplaced(s, id, s.active[id].(txn := Some(txn), checkedAt := checkedAt, writtenAt := s.now));
      }
  }

  lemma BodyIsSound(s: State, id: nat)
    requires Inv(s) && id in s.active
    ensures BodyInv(s, s.active[id])
  {
    hide BodyInv;
  }

  lemma StepGrows(s: State, a: Action)
    requires s.history != []
    ensures s.history <= Step(s, a).history && s.log <= Step(s, a).log
  {
    hide Commit, Write, MayApply, CanCommit;
  }

  lemma StepKeepsInv(s: State, a: Action)
    requires Inv(s)
    ensures Inv(Step(s, a))
  {
    assert s.history != [];
    hide Inv, WriteRow, MayApply, NoConflict, Commit;
    match a
    case EnsureHistoryFence(topic, fence) =>
      if FenceKey(topic) !in Current(s).rows {
        ForeignWriteKeepsInv(s, FenceKey(topic), FenceRow(fence, 0, ""));
      }
    case PutLease(topic, peerID, jobID, fence, token, expiresAt) =>
      ForeignWriteKeepsInv(s, LeaseKey(topic, peerID, jobID), LeaseRow(fence, token, expiresAt));
    case PutRead(topic, key, readVersion) => ForeignWriteKeepsInv(s, ReadKey(topic, key), ReadRow(readVersion));
    case CommitPlan(id) =>
      if CanCommit(s, id) {
        CommitKeepsInv(s, id);
      }
    case Tick(elapsed) => RowsStay(s, Step(s, a));
    case AbortPlan(id) => RowsStay(s, Step(s, a));
    case _ => BodyStepsKeepInv(s, a);
  }

  lemma RowsStay(s: State, s': State)
    requires Inv(s) && s'.history == s.history && s'.log == s.log && s.now <= s'.now
    requires forall id :: id in s'.active ==> id in s.active && s'.active[id] == s.active[id]
    ensures Inv(s')
  {
    assert ActiveInv(s') by {
      ActiveStays(s, s');
    }
    hide ActiveInv, HistoryInv, PlanRecorded, PlansApart, WasAdmissible;
  }

  lemma InitialIsSound()
    ensures Inv(Initial)
  {
    assert RowsInv(Initial.history[0].rows);
    LaterItself(Initial.history[0]);
  }

  lemma {:induction false} ExecutionKeepsInv(states: seq<State>, actions: seq<Action>, i: nat)
    requires Execution(states, actions) && i < |states|
    ensures Inv(states[i])
  {
    hide Inv, Step;
    if i == 0 {
      InitialIsSound();
    } else {
      ExecutionKeepsInv(states, actions, i - 1);
      assert StepAt(states, actions, i - 1);
      StepKeepsInv(states[i - 1], actions[i - 1]);
    }
  }

  lemma {:induction false} ExecutionGrows(states: seq<State>, actions: seq<Action>, i: nat, j: nat)
    requires Execution(states, actions) && i <= j < |states|
    ensures states[i].history <= states[j].history && states[i].log <= states[j].log
    decreases j
  {
    hide Step;
    if i < j {
      ExecutionGrows(states, actions, i, j - 1);
      assert StepAt(states, actions, j - 1);
      StepGrows(states[j - 1], actions[j - 1]);
    }
  }

  /** Time only passes by ticks, bodies are apart, and one begins on the snapshot it names. */
  lemma BodiesAreApart(s: State, a: Action, other: nat)
    requires s.history != []
    ensures var s' := Step(s, a);
      && s'.now == s.now + (if a.Tick? then a.elapsed else 0)
      && (NamesBody(a, other) || (other in s'.active <==> other in s.active))
      && (!NamesBody(a, other) && other in s.active ==> s'.active[other] == s.active[other])
      && (a.AbortPlan? && a.id == other ==> other !in s'.active)
      && (a.CommitPlan? && a.id == other && CanCommit(s, other) ==> other !in s'.active)
      && (a.BeginPlan? && a.id == other && other !in s.active && a.snapshot < |s.history| ==>
            other in s'.active && s'.active[other] == Body(a.plan, s.history[a.snapshot], None, s.now, s.now, s.now))
  {
    hide Commit, NoConflict, MayApply, Write;
  }

  predicate NamesBody(a: Action, id: nat) {
    (a.BeginPlan? || a.ApplyPlan? || a.CommitPlan? || a.AbortPlan?) && a.id == id
  }

  // Main results

  lemma ApartAt(p: Plan, q: Plan, i: nat, j: nat)
    requires PlansApart(p, q) && i < |p.decisions| && j < |q.decisions|
    ensures Apart(p.decisions[i], p.txid, q.decisions[j], q.txid)
  {
  }

  /** A transaction is applied to a topic at most once. */
  lemma AppliedOnce(states: seq<State>, actions: seq<Action>, n: nat, i: nat, j: nat, di: nat, dj: nat)
    requires Execution(states, actions) && n < |states|
    requires var log := states[n].log;
      && i < |log| && j < |log| && di < |log[i].decisions| && dj < |log[j].decisions|
      && log[i].decisions[di].topic == log[j].decisions[dj].topic && log[i].txid == log[j].txid
    ensures i == j && di == dj
  {
    hide Execution, HistoryInv, ActiveInv, PlanRecorded;
    ExecutionKeepsInv(states, actions, n);
    var log := states[n].log;
    if i < j {
      ApartAt(log[i], log[j], di, dj);
    } else if j < i {
      ApartAt(log[j], log[i], dj, di);
    } else {
      AdmittedPlanFacts(states[n].history, log[i], di);
    }
  }

  lemma AdmittedPlanFacts(history: seq<Db<Key, Row>>, plan: Plan, i: nat)
    requires WasAdmissible(history, plan) && i < |plan.decisions|
    ensures DecisionsDistinct(plan.decisions) && DecisionShape(plan.decisions[i], plan.txid)
    ensures var d := plan.decisions[i];
      && (forall m, n :: 0 <= m < n < |d.outputs| ==> d.outputs[m] != d.outputs[n])
      && (forall m, n :: 0 <= m < n < |d.spends| ==> d.spends[m].outpoint != d.spends[n].outpoint)
  {
    hide DecisionValid, EvictionsHold, UpdateHolds, DecisionShape;
    var n, checkedAt: nat, writtenAt: nat :|
      0 <= n < |history| && checkedAt <= writtenAt && Admissible(history[n].rows, plan, checkedAt, writtenAt);
    assert Writable(history[n].rows, plan.decisions[i], writtenAt);
  }

  /** An outpoint is inserted into a topic at most once, even after it was evicted. */
  lemma InsertedOnce(states: seq<State>, actions: seq<Action>, n: nat, i: nat, j: nat, di: nat, dj: nat, oi: nat, oj: nat)
    requires Execution(states, actions) && n < |states|
    requires var log := states[n].log;
      && i < |log| && j < |log| && di < |log[i].decisions| && dj < |log[j].decisions|
      && oi < |log[i].decisions[di].outputs| && oj < |log[j].decisions[dj].outputs|
      && log[i].decisions[di].topic == log[j].decisions[dj].topic
      && log[i].decisions[di].outputs[oi] == log[j].decisions[dj].outputs[oj]
    ensures i == j && di == dj && oi == oj
  {
    hide Execution, HistoryInv, ActiveInv, PlanRecorded, PlansApart, WasAdmissible;
    ExecutionKeepsInv(states, actions, n);
    var s := states[n];
    AdmittedPlanFacts(s.history, s.log[i], di);
    AdmittedPlanFacts(s.history, s.log[j], dj);
    AppliedOnce(states, actions, n, i, j, di, dj);
  }

  /** An output of a topic is spent at most once, and so by one transaction only. */
  lemma SpentOnce(states: seq<State>, actions: seq<Action>, n: nat, i: nat, j: nat, di: nat, dj: nat, si: nat, sj: nat)
    requires Execution(states, actions) && n < |states|
    requires var log := states[n].log;
      && i < |log| && j < |log| && di < |log[i].decisions| && dj < |log[j].decisions|
      && si < |log[i].decisions[di].spends| && sj < |log[j].decisions[dj].spends|
      && log[i].decisions[di].topic == log[j].decisions[dj].topic
      && log[i].decisions[di].spends[si].outpoint == log[j].decisions[dj].spends[sj].outpoint
    ensures i == j && di == dj && si == sj
  {
    hide Execution, HistoryInv, ActiveInv, PlanRecorded, WasAdmissible;
    ExecutionKeepsInv(states, actions, n);
    var s := states[n];
    if i < j {
      ApartAt(s.log[i], s.log[j], di, dj);
    } else if j < i {
      ApartAt(s.log[j], s.log[i], dj, di);
    } else {
      AdmittedPlanFacts(s.history, s.log[i], di);
    }
  }

  function RowsOf(s: State): Rows {
    if s.history == [] then map[] else Current(s).rows
  }

  /** Every output's transaction and every spender has been applied to the topic. */
  lemma OutputsAreApplied(states: seq<State>, actions: seq<Action>, n: nat, topic: string, o: Outpoint)
    requires Execution(states, actions) && n < |states| && OutputKey(topic, o) in RowsOf(states[n])
    ensures var rows := RowsOf(states[n]);
      var row := rows[OutputKey(topic, o)];
      && row.OutputRow? && AppliedKey(topic, o.txid) in rows
      && (row.spent <==> row.spentBy.Some?)
      && (row.spentBy.Some? ==> AppliedKey(topic, row.spentBy.value) in rows)
  {
    hide Execution, Later, ActiveInv, LogInv;
    ExecutionKeepsInv(states, actions, n);
    var s := states[n];
    assert RowsInv(Current(s).rows);
    assert OutputOk(Current(s).rows, topic, o);
  }

  /** Some state of the database, read by one body, had everything that the plan expects: stale plans never commit. */
  ghost predicate FitWhenRead(history: seq<Db<Key, Row>>, plan: Plan) {
    exists i, checkedAt: nat, writtenAt: nat ::
      0 <= i < |history| && checkedAt <= writtenAt && PlanFits(history[i].rows, plan, checkedAt, writtenAt)
  }

  /** A plan that no state of the database admits is never committed, whatever else happens. */
  lemma OnlyAdmissiblePlansCommit(states: seq<State>, actions: seq<Action>, n: nat, i: nat)
    requires Execution(states, actions) && n < |states| && i < |states[n].log|
    ensures WasAdmissible(states[n].history, states[n].log[i])
    ensures FitWhenRead(states[n].history, states[n].log[i])
  {
    hide Execution, HistoryInv, ActiveInv, WasAdmissible, PlanRecorded, PlansApart, FitWhenRead;
    ExecutionKeepsInv(states, actions, n);
    AdmissibleFitted(states[n].history, states[n].log[i]);
  }

  lemma AdmissibleFitted(history: seq<Db<Key, Row>>, plan: Plan)
    requires WasAdmissible(history, plan)
    ensures FitWhenRead(history, plan)
  {
    hide Admissible, PlanFits;
    var i, checkedAt: nat, writtenAt: nat :|
      0 <= i < |history| && checkedAt <= writtenAt && Admissible(history[i].rows, plan, checkedAt, writtenAt);
    AdmissibleMeansFits(history[i].rows, plan, checkedAt, writtenAt);
  }

  /**
   * The writes of a plan still match when it commits: although its predicates were checked on a snapshot, every
   * conditional write of every decision holds of the rows just before the commit.
   */
  lemma WritesStillMatch(states: seq<State>, actions: seq<Action>, n: nat, id: nat, i: nat)
    requires Execution(states, actions) && n < |actions| && actions[n] == CommitPlan(id) && CanCommit(states[n], id)
    requires i < |states[n].active[id].plan.decisions|
    ensures Writable(RowsOf(states[n]), states[n].active[id].plan.decisions[i], states[n].active[id].writtenAt)
  {
    hide PlanEffect, RowsInv, Later, Commit, NoConflict, PlanRecorded, PlansApart, WasAdmissible, Writable;
    ExecutionKeepsInv(states, actions, n);
    var s := states[n];
    CommitKeepsInv(s, id);
    BodyIsSound(s, id);
    hide Execution;
    var b := s.active[id];
    var d := b.plan.decisions[i];
    assert Writable(b.base.rows, d, b.writtenAt);
    DecisionFacts(b.txn.value, b.plan, i);
    forall k | KeyTopic(k) == Some(d.topic) && Touches(d, k)
      ensures Get(Current(s).rows, k) == Get(b.base.rows, k)
    {
      DecidedRow(Current(s), b.txn.value, b.plan, i, k);
    }
    TouchedDecide(b.base.rows, Current(s).rows, d, b.writtenAt);
  }

  /** Whether the writes of a decision match depends on the rows it touches only. */
  lemma TouchedDecide(rows: Rows, rows': Rows, d: Decision, now: nat)
    requires HandoffOnTopic(d)
    requires forall k :: KeyTopic(k) == Some(d.topic) && Touches(d, k) ==> Get(rows', k) == Get(rows, k)
    ensures Writable(rows', d, now) <==> Writable(rows, d, now)
  {
    forall i | 0 <= i < |d.spends|
      ensures SpendableAt(rows, d.topic, d.spends[i]) <==> SpendableAt(rows', d.topic, d.spends[i])
    {
      assert Touches(d, OutputKey(d.topic, d.spends[i].outpoint));
      assert Get(rows', OutputKey(d.topic, d.spends[i].outpoint)) == Get(rows, OutputKey(d.topic, d.spends[i].outpoint));
    }
    forall i | 0 <= i < |d.evictions|
      ensures OutputKey(d.topic, d.evictions[i]) in rows <==> OutputKey(d.topic, d.evictions[i]) in rows'
    {
      assert Touches(d, OutputKey(d.topic, d.evictions[i]));
      assert Get(rows', OutputKey(d.topic, d.evictions[i])) == Get(rows, OutputKey(d.topic, d.evictions[i]));
    }
    forall i | 0 <= i < |d.outputs|
      ensures OutputFree(rows, d, d.outputs[i]) <==> OutputFree(rows', d, d.outputs[i])
    {
      assert Touches(d, OutputKey(d.topic, d.outputs[i]));
      assert Get(rows', OutputKey(d.topic, d.outputs[i])) == Get(rows, OutputKey(d.topic, d.outputs[i]));
    }
    assert Touches(d, AppliedKey(d.topic, d.applied));
    assert Get(rows', AppliedKey(d.topic, d.applied)) == Get(rows, AppliedKey(d.topic, d.applied));
    if d.update.Some? {
      assert Touches(d, FenceKey(d.topic));
      assert Get(rows', FenceKey(d.topic)) == Get(rows, FenceKey(d.topic));
      if d.update.value.handoff.Some? {
        var k := HandoffKey(d.update.value.handoff.value);
        assert Touches(d, k);
        assert Get(rows', k) == Get(rows, k);
      }
    }
  }

  function FenceOf(s: State, topic: string): Option<Row> {
    Get(RowsOf(s), FenceKey(topic))
  }

  /** Over every run a topic's fence keeps its epoch, and its generation never falls. */
  lemma FencesAdvance(states: seq<State>, actions: seq<Action>, i: nat, j: nat, topic: string)
    requires Execution(states, actions) && i <= j < |states| && FenceOf(states[i], topic).Some?
    ensures FenceOf(states[j], topic).Some? && FenceAdvances(FenceOf(states[i], topic).value, FenceOf(states[j], topic).value)
  {
    hide Execution, FenceAdvances, ActiveInv, LogInv, RowsInv;
    ExecutionKeepsInv(states, actions, i);
    ExecutionKeepsInv(states, actions, j);
    ExecutionGrows(states, actions, i, j);
    assert states[j].history[|states[i].history| - 1] == Current(states[i]);
    assert LaterAt(Current(states[i]), Current(states[j]), FenceKey(topic));
  }

  /** The rows of a history update just before its commit, and just after. */
  ghost predicate UpdateCommits(before: Rows, after: Rows, d: Decision, checkedAt: nat, writtenAt: nat) {
    && d.update.Some?
    && FenceIs(before, d.topic, d.expected)
    && d.update.value.nextGeneration > d.expected.generation
    && FenceIs(after, d.topic, d.expected.(generation := d.update.value.nextGeneration))
    && (d.update.value.handoff.Some? ==>
          var h := d.update.value.handoff.value;
          && h.expected.fence == d.expected
          && LeaseHolds(before, h, checkedAt) && LeaseHolds(before, h, writtenAt)
          && Get(after, HandoffKey(h)) == Some(before[HandoffKey(h)].(fence := d.expected.(generation := d.update.value.nextGeneration))))
  }

  ghost predicate LeasesStay(before: Rows, after: Rows, d: Decision) {
    forall k: Key :: k.LeaseKey? && k.topic == d.topic && !Moves(d, k) ==> Get(after, k) == Get(before, k)
  }

  /**
   * A committed history update moves the fence from the expected generation to a higher one; its handoff lease was on
   * the old fence, had the expected token, was unexpired both when its body checked and when it wrote, and it alone
   * moves to the new generation with it.
   */
  lemma UpdateMovesFenceAndLease(states: seq<State>, actions: seq<Action>, n: nat, id: nat, i: nat)
    requires Execution(states, actions) && n < |actions| && actions[n] == CommitPlan(id) && CanCommit(states[n], id)
    requires i < |states[n].active[id].plan.decisions| && states[n].active[id].plan.decisions[i].update.Some?
    ensures var b := states[n].active[id];
      && b.begunAt <= b.checkedAt <= b.writtenAt <= states[n].now
      && UpdateCommits(RowsOf(states[n]), RowsOf(states[n + 1]), b.plan.decisions[i], b.checkedAt, b.writtenAt)
      && LeasesStay(RowsOf(states[n]), RowsOf(states[n + 1]), b.plan.decisions[i])
  {
    hide PlanEffect, RowsInv, Later, Commit, NoConflict, PlanRecorded, PlansApart, WasAdmissible;
    ExecutionKeepsInv(states, actions, n);
    assert StepAt(states, actions, n);
    hide Execution;
    var s := states[n];
    CommitKeepsInv(s, id);
    BodyIsSound(s, id);
    var b := s.active[id];
    UpdateFacts(Current(s), b.txn.value, b.plan, i, b.checkedAt, b.writtenAt);
  }

  lemma UpdateFacts(db: Db<Key, Row>, t: Txn<Key, Row>, plan: Plan, i: nat, checkedAt: nat, writtenAt: nat)
    requires Committing(db, t, plan) && i < |plan.decisions| && plan.decisions[i].update.Some?
    requires Admissible(t.base.rows, plan, checkedAt, writtenAt)
    ensures UpdateCommits(db.rows, Commit(db, t).rows, plan.decisions[i], checkedAt, writtenAt)
    ensures LeasesStay(db.rows, Commit(db, t).rows, plan.decisions[i])
  {
    hide Commit, Committing, PlanEffect, RowsInv, Later, SpendsHold, EvictionsHold, OutputsHold;
    DecisionFacts(t, plan, i);
    var d := plan.decisions[i];
    assert Writable(t.base.rows, d, writtenAt) && DecisionValid(t.base.rows, d, plan.txid, checkedAt);
    DecidedRow(db, t, plan, i, FenceKey(d.topic));
    if d.update.value.handoff.Some? {
      DecidedRow(db, t, plan, i, HandoffKey(d.update.value.handoff.value));
    }
    forall k: Key | k.LeaseKey? && k.topic == d.topic && !Moves(d, k)
      ensures Get(Commit(db, t).rows, k) == Get(db.rows, k)
    {
      DecidedRow(db, t, plan, i, k);
    }
  }

  ghost predicate Began(s: State, a: Action, id: nat, b: Body) {
    a.BeginPlan? && a.id == id && a.plan == b.plan && s.now == b.begunAt
  }

  /** A body began at a step of the run, and its begin time is the time of that step. */
  lemma {:induction false} BodyBegan(states: seq<State>, actions: seq<Action>, n: nat, id: nat)
    requires Execution(states, actions) && n < |states| && id in states[n].active
    ensures exists m :: 0 <= m < n && Began(states[m], actions[m], id, states[n].active[id])
  {
    hide MayApply, CanCommit, Commit;
    if n > 0 {
      assert StepAt(states, actions, n - 1);
      if id in states[n - 1].active && actions[n - 1] != AbortPlan(id) {
        BodyBegan(states, actions, n - 1, id);
      }
    }
  }

  /** A lease that had expired when the body began is never handed off by it. */
  lemma ExpiredLeaseNeverHandsOff(states: seq<State>, actions: seq<Action>, n: nat, id: nat, i: nat, k: Key)
    requires Execution(states, actions) && n < |actions| && actions[n] == CommitPlan(id) && CanCommit(states[n], id)
    requires i < |states[n].active[id].plan.decisions|
    requires k in RowsOf(states[n]) && RowsOf(states[n])[k].LeaseRow?
    requires RowsOf(states[n])[k].expiresAt <= states[n].active[id].begunAt
    ensures !Moves(states[n].active[id].plan.decisions[i], k)
  {
    assert |states| == |actions| + 1;
    hide Execution, Step, LeasesStay;
    if states[n].active[id].plan.decisions[i].update.Some? {
      UpdateMovesFenceAndLease(states, actions, n, id, i);
    }
  }

  /** A lease left on an older generation never authorises an update: no later commit hands off from that fence. */
  lemma StaleLeaseNeverAuthorises(states: seq<State>, actions: seq<Action>, m: nat, n: nat, id: nat, i: nat, lease: Lease)
    requires Execution(states, actions) && m <= n < |actions|
    requires FenceOf(states[m], lease.topic).Some? && FenceOf(states[m], lease.topic).value.FenceRow?
    requires lease.fence.generation < FenceOf(states[m], lease.topic).value.fence.generation
    requires actions[n] == CommitPlan(id) && CanCommit(states[n], id) && i < |states[n].active[id].plan.decisions|
    requires var d := states[n].active[id].plan.decisions[i];
      d.topic == lease.topic && d.update.Some? && d.update.value.handoff.Some?
    ensures states[n].active[id].plan.decisions[i].update.value.handoff.value.expected != lease
  {
    assert |states| == |actions| + 1;
    hide Execution, Step, LeasesStay;
    FencesAdvance(states, actions, m, n, lease.topic);
    UpdateMovesFenceAndLease(states, actions, n, id, i);
  }
}
