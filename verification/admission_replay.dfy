/** What rows are left by admissions: the committed plans, run one after the other (pkg/storage/mongodb/admission.go). */
module AdmissionReplay {
  import opened Admission
  import opened AdmissionPlan
  import opened AdmissionRuns
  import opened Snapshot
  import opened Wrappers

  // Running events one after the other, without snapshots, transactions or conflicts

  function DecisionsRow(row: Option<Row>, plan: Plan, n: nat, k: Key): Option<Row>
    requires n <= |plan.decisions|
  {
    if n == 0 then row else RowAfter(DecisionsRow(row, plan, n - 1, k), plan.decisions[n - 1], plan.txid, k)
  }

  function PlanRow(row: Option<Row>, plan: Plan, k: Key): Option<Row> {
    if OutboxNames(plan, |plan.outbox|, k) then Some(OutboxRow) else DecisionsRow(row, plan, |plan.decisions|, k)
  }

  function EventRow(row: Option<Row>, e: Event, k: Key): Option<Row> {
    match e
    case Admitted(plan) => PlanRow(row, plan, k)
    case Foreign(key, r) => if key == k then Some(r) else row
  }

  /** The row at k after the events, in order, on an empty database. */
  function Replay(events: seq<Event>, k: Key): Option<Row> {
    if events == [] then None else EventRow(Replay(events[..|events| - 1], k), events[|events| - 1], k)
  }

  function PlansOf(events: seq<Event>): seq<Plan> {
    if events == [] then []
    else
      var last := events[|events| - 1];
      PlansOf(events[..|events| - 1]) + if last.Admitted? then [last.plan] else []
  }

  // Commits are serial

  lemma {:induction false} UndecidedStays(row: Option<Row>, plan: Plan, n: nat, k: Key)
    requires n <= |plan.decisions| && !Decides(plan, n, KeyTopic(k))
    requires forall i :: 0 <= i < n ==> HandoffOnTopic(plan.decisions[i])
    ensures DecisionsRow(row, plan, n, k) == row
  {
    hide RowAfter, HandoffOnTopic, Touches;
    if n > 0 {
      UndecidedStays(row, plan, n - 1, k);
      OffTopic(plan.decisions[n - 1], plan.txid, row, k);
    }
  }

  lemma {:induction false} DecidedOnce(row: Option<Row>, plan: Plan, n: nat, i: nat, k: Key)
    requires i < n <= |plan.decisions| && DecisionsDistinct(plan.decisions)
    requires forall j :: 0 <= j < n ==> HandoffOnTopic(plan.decisions[j])
    requires KeyTopic(k) == Some(plan.decisions[i].topic)
    ensures DecisionsRow(row, plan, n, k) == RowAfter(row, plan.decisions[i], plan.txid, k)
  {
    hide RowAfter, HandoffOnTopic, Touches;
    if i == n - 1 {
      UndecidedStays(row, plan, n - 1, k);
    } else {
      DecidedOnce(row, plan, n - 1, i, k);
      OffTopic(plan.decisions[n - 1], plan.txid, RowAfter(row, plan.decisions[i], plan.txid, k), k);
    }
  }

  /** A commit does to every row of the current state what its plan does when it runs alone on it. */
  lemma CommitIsSerial(db: Db<Key, Row>, t: Txn<Key, Row>, plan: Plan, k: Key)
    requires Committing(db, t, plan)
    ensures Get(Commit(db, t).rows, k) == PlanRow(Get(db.rows, k), plan, k)
  {
    hide Commit, Committing, RowAfter;
    CommittingIsAdmissible(db, t, plan);
    forall i | 0 <= i < |plan.decisions|
      ensures HandoffOnTopic(plan.decisions[i])
    {
      DecisionFacts(t, plan, i);
    }
    AdmissibleIsDistinct(t.base.rows, plan);
    if i :| 0 <= i < |plan.decisions| && KeyTopic(k) == Some(plan.decisions[i].topic) {
      DecidedRow(db, t, plan, i, k);
      DecidedOnce(Get(db.rows, k), plan, |plan.decisions|, i, k);
    } else {
      UndecidedRow(db, t, plan, k);
      UndecidedStays(Get(db.rows, k), plan, |plan.decisions|, k);
    }
  }

  lemma AdmissibleIsDistinct(rows: Rows, plan: Plan)
    requires exists checkedAt: nat, writtenAt: nat :: Admissible(rows, plan, checkedAt, writtenAt)
    ensures DecisionsDistinct(plan.decisions)
  {
  }

  /** A step adds at most one event, and does to every row what that event does. */
  lemma StepReplays(s: State, a: Action, k: Key)
    requires Inv(s)
    ensures a.Tick? || a.BeginPlan? || a.ApplyPlan? || a.AbortPlan? ==> Step(s, a).events == s.events
    ensures var s' := Step(s, a);
      if s'.events == s.events then Get(RowsOf(s'), k) == Get(RowsOf(s), k) && s'.log == s.log
      else
        && |s'.events| == |s.events| + 1 && s'.events[..|s.events|] == s.events
        && Get(RowsOf(s'), k) == EventRow(Get(RowsOf(s), k), s'.events[|s.events|], k)
        && s'.log == s.log + if s'.events[|s.events|].Admitted? then [s'.events[|s.events|].plan] else []
  {
    assert s.history != [];
    hide Inv, PlanRow, Step;
    match a
    case CommitPlan(id) => CommitReplays(s, id, k);
    case Tick(_) => QuietStep(s, a);
    case BeginPlan(_, _, _) => QuietStep(s, a);
    case ApplyPlan(_, _, _) => QuietStep(s, a);
    case AbortPlan(_) => QuietStep(s, a);
    case _ => ForeignStep(s, a, k);
  }

  lemma QuietStep(s: State, a: Action)
    requires s.history != [] && (a.Tick? || a.BeginPlan? || a.ApplyPlan? || a.AbortPlan?)
    ensures Step(s, a).events == s.events && Step(s, a).log == s.log && RowsOf(Step(s, a)) == RowsOf(s)
  {
    hide MayApply;
  }

  lemma ForeignStep(s: State, a: Action, k: Key)
    requires s.history != [] && (a.EnsureHistoryFence? || a.PutLease? || a.PutRead?)
    ensures var s' := Step(s, a);
      && s'.log == s.log
      && if s'.events == s.events then Get(RowsOf(s'), k) == Get(RowsOf(s), k)
         else
           && |s'.events| == |s.events| + 1 && s'.events[..|s.events|] == s.events && s'.events[|s.events|].Foreign?
           && Get(RowsOf(s'), k) == EventRow(Get(RowsOf(s), k), s'.events[|s.events|], k)
  {
    hide MayApply;
  }

  lemma CommitReplays(s: State, id: nat, k: Key)
    requires Inv(s) && s.history != []
    ensures !CanCommit(s, id) ==> Step(s, CommitPlan(id)) == s
    ensures CanCommit(s, id) ==>
      var s' := Step(s, CommitPlan(id));
      && Get(RowsOf(s'), k) == PlanRow(Get(RowsOf(s), k), s.active[id].plan, k)
      && s'.events == s.events + [Admitted(s.active[id].plan)] && s'.log == s.log + [s.active[id].plan]
  {
    CommitStep(s, id);
    if CanCommit(s, id) {
      CommitKeepsInv(s, id);
      hide Inv, Step, CanCommit, Committing, Commit, PlanRow;
      CommitIsSerial(Current(s), s.active[id].txn.value, s.active[id].plan, k);
    }
  }

  // Main results

  /** A commit changes the current rows, not only those of its snapshot, to exactly what its plan declares. */
  lemma CommittedRows(states: seq<State>, actions: seq<Action>, n: nat, id: nat)
    requires Execution(states, actions) && n < |actions| && actions[n] == CommitPlan(id) && CanCommit(states[n], id)
    ensures PlanRows(RowsOf(states[n]), RowsOf(states[n + 1]), states[n].active[id].plan)
  {
    ExecutionKeepsInv(states, actions, n);
    assert StepAt(states, actions, n);
    hide Execution;
    CommitDeclares(states[n], id);
  }

  lemma CommitDeclares(s: State, id: nat)
    requires Inv(s) && CanCommit(s, id)
    ensures PlanRows(RowsOf(s), RowsOf(Step(s, CommitPlan(id))), s.active[id].plan)
    ensures Step(s, CommitPlan(id)).log == s.log + [s.active[id].plan]
  {
    CommitKeepsInv(s, id);
    CommitStep(s, id);
    hide Inv, CanCommit, Step, Committing, Commit, NoConflict, PlanRows;
    CommitDeclaresRows(Current(s), s.active[id].txn.value, s.active[id].plan);
  }

  lemma CommitStep(s: State, id: nat)
    requires s.history != []
    ensures !CanCommit(s, id) ==> Step(s, CommitPlan(id)) == s
    ensures CanCommit(s, id) ==>
      var s' := Step(s, CommitPlan(id));
      && Current(s') == Commit(Current(s), s.active[id].txn.value)
      && s'.log == s.log + [s.active[id].plan]
      && s'.events == s.events + [Admitted(s.active[id].plan)]
  {
    hide Commit, NoConflict, MayApply, Write;
  }

  lemma CommitDeclaresRows(db: Db<Key, Row>, t: Txn<Key, Row>, plan: Plan)
    requires Committing(db, t, plan)
    ensures PlanRows(db.rows, Commit(db, t).rows, plan)
  {
    hide Commit, Committing, RowIs;
    var after := Commit(db, t).rows;
    forall i, k | 0 <= i < |plan.decisions| && KeyTopic(k) == Some(plan.decisions[i].topic)
      ensures RowIs(Get(db.rows, k), Get(after, k), plan.decisions[i], plan.txid, k)
    {
      CommitDecides(db, t, plan, i, k);
    }
    forall k: Key | k.OutboxKey? || !DecidesTopic(plan.decisions, k.topic)
      ensures Get(after, k) == if OutboxNames(plan, |plan.outbox|, k) then Some(OutboxRow) else Get(db.rows, k)
      ensures !k.OutboxKey? ==> !OutboxNames(plan, |plan.outbox|, k)
    {
      assert !Decides(plan, |plan.decisions|, KeyTopic(k));
      UndecidedRow(db, t, plan, k);
    }
    forall i | 0 <= i < |plan.outbox|
      ensures OutboxNames(plan, |plan.outbox|, OutboxKey(plan.outbox[i].eventID))
    {
    }
  }

  lemma CommitDecides(db: Db<Key, Row>, t: Txn<Key, Row>, plan: Plan, i: nat, k: Key)
    requires Committing(db, t, plan) && i < |plan.decisions| && KeyTopic(k) == Some(plan.decisions[i].topic)
    ensures RowIs(Get(db.rows, k), Get(Commit(db, t).rows, k), plan.decisions[i], plan.txid, k)
  {
    CommittingIsAdmissible(db, t, plan);
    hide Commit, Committing, RowAfter, RowIs, StateFound, HandoffFound, NamesOnce, DecisionSays, Touches, Admissible;
    var checkedAt: nat, writtenAt: nat :| Admissible(t.base.rows, plan, checkedAt, writtenAt);
    AdmissibleMeansFits(t.base.rows, plan, checkedAt, writtenAt);
    DecidedRow(db, t, plan, i, k);
    RowAfterIs(t.base.rows, Get(db.rows, k), plan.decisions[i], plan.txid, checkedAt, k);
  }

  /**
   * An admission that reads the current state and meets nobody else: it commits exactly when the state has all that its
   * plan expects, and then the rows are those declared; a refused plan leaves the state as it was.
   */
  method AdmitUndisturbed(s: State, id: nat, plan: Plan) returns (r: Result<(), Rejection>, ghost s': State)
    requires Inv(s) && s.history != [] && id !in s.active
    ensures r.Success? <==> PlanFits(RowsOf(s), plan, s.now, s.now)
    ensures r.Success? ==> s'.log == s.log + [plan] && PlanRows(RowsOf(s), RowsOf(s'), plan)
    ensures r.Failure? ==> s' == s
  {
    var base := Current(s);
    assert EdgesTyped(base.rows) by {
      assert RowsInv(s.history[|s.history| - 1].rows);
    }
    var applied := ApplyAdmission(base, plan, s.now, s.now);
    s' := s;
    if applied.Failure? {
      return Failure(applied.error), s;
    }
    ghost var written := AppliedAlone(s, id, plan, applied.value);
    hide Inv, Step, Admissible, PlanEffect, PlanFits, PlanRows, CanCommit;
    CommitDeclares(written, id);
    return Success(()), Step(written, CommitPlan(id));
  }

  /** After an accepted body nobody else has written, so that it can commit. */
  lemma AppliedAlone(s: State, id: nat, plan: Plan, txn: Txn<Key, Row>) returns (written: State)
    requires Inv(s) && s.history != [] && id !in s.active
    requires Admissible(RowsOf(s), plan, s.now, s.now) && txn.base == Current(s) && PlanEffect(txn, plan)
    ensures Inv(written) && CanCommit(written, id)
    ensures written.history == s.history && written.log == s.log
    ensures written.active[id].plan == plan
  {
    var begin := BeginPlan(id, plan, |s.history| - 1);
    var begun := Step(s, begin);
    StepKeepsInv(s, begin);
    hide Inv, Admissible, PlanEffect;
    assert begun == s.(active := s.active[id := Body(plan, Current(s), None, s.now, s.now, s.now)]);
    var apply := ApplyPlan(id, txn, s.now);
    assert MayApply(begun, begun.active[id], txn, s.now);
    written := Step(begun, apply);
    StepKeepsInv(begun, apply);
  }

  /**
   * In every state of every run the rows are those that the events leave when they are run one after the other in the
   * order they took effect: concurrent admissions do what the committed plans alone do, serially.
   */
  lemma {:induction false} RowsAreReplayed(states: seq<State>, actions: seq<Action>, n: nat, k: Key)
    requires Execution(states, actions) && n < |states|
    ensures Get(RowsOf(states[n]), k) == Replay(states[n].events, k)
    ensures PlansOf(states[n].events) == states[n].log
  {
    hide Inv, Step, EventRow;
    if n > 0 {
      RowsAreReplayed(states, actions, n - 1, k);
      ExecutionKeepsInv(states, actions, n - 1);
      assert StepAt(states, actions, n - 1);
      StepReplays(states[n - 1], actions[n - 1], k);
    }
  }

  /**
   * Rejected plans leave no trace: two runs with the same events have the same rows, whatever other plans were begun,
   * checked, written, rejected, aborted or left unfinished in one of them and not in the other.
   */
  lemma RejectedPlanChangesNothing(states: seq<State>, actions: seq<Action>, n: nat,
                                   states': seq<State>, actions': seq<Action>, n': nat)
    requires Execution(states, actions) && n < |states| && Execution(states', actions') && n' < |states'|
    requires states[n].events == states'[n'].events
    ensures RowsOf(states[n]) == RowsOf(states'[n'])
  {
    hide Execution, Replay, PlansOf, RowsOf;
    var rows, rows' := RowsOf(states[n]), RowsOf(states'[n']);
    forall k
      ensures Get(rows, k) == Get(rows', k)
    {
      RowsAreReplayed(states, actions, n, k);
      RowsAreReplayed(states', actions', n', k);
    }
    SameRows(rows, rows');
  }

  lemma SameRows(a: Rows, b: Rows)
    requires forall k :: Get(a, k) == Get(b, k)
    ensures a == b
  {
    forall k
      ensures k in a <==> k in b
      ensures k in a ==> a[k] == b[k]
    {
      assert Get(a, k) == Get(b, k);
    }
  }

  /** A decision or an intent of the plan accounts for the row. */
  ghost predicate Accounts(plan: Plan, k: Key, row: Row) {
    match k
    case OutputKey(_, _) => InsertsRow(plan, k)
    case EdgeKey(_, _) => exists i :: 0 <= i < |plan.decisions| && Links(plan.decisions[i], |plan.decisions[i].edges|, k)
    case AppliedKey(topic, txid) => txid == plan.txid && Decides(plan, |plan.decisions|, Some(topic))
    case OutboxKey(_) => OutboxNames(plan, |plan.outbox|, k)
    case FenceKey(_) => row.FenceRow? && exists i :: 0 <= i < |plan.decisions| && AdvancesTo(plan.decisions[i], k, row.fence.generation)
    case _ => false
  }

  ghost predicate InsertsRow(plan: Plan, k: Key) {
    exists i :: 0 <= i < |plan.decisions| && Inserts(plan.decisions[i], |plan.decisions[i].outputs|, k)
  }

  predicate AdvancesTo(d: Decision, k: Key, generation: nat) {
    Advances(d, k) && d.update.value.nextGeneration == generation
  }

  ghost predicate SpendsRow(plan: Plan, k: Key) {
    exists i :: 0 <= i < |plan.decisions| && Spends(plan.decisions[i], |plan.decisions[i].spends|, k)
  }

  ghost predicate AccountedFor(log: seq<Plan>, k: Key, row: Row) {
    exists i :: 0 <= i < |log| && Accounts(log[i], k, row)
  }

  ghost predicate SpenderInLog(log: seq<Plan>, k: Key, spender: string) {
    exists i :: 0 <= i < |log| && log[i].txid == spender && SpendsRow(log[i], k)
  }

  /** The row that follows from a plan is accounted for by it, or is the row before. */
  ghost predicate RowTraced(row: Option<Row>, after: Option<Row>, plan: Plan, k: Key) {
    && (after.Some? && (k.LeaseKey? || k.ReadKey?) ==> row.Some?)
    && (after.Some? && after != row ==>
          Accounts(plan, k, after.value) || (k.OutputKey? && row.Some? && SpendsRow(plan, k)) || k.LeaseKey? || k.ReadKey?)
    && (after.Some? && k.OutputKey? && after.value.OutputRow? && after.value.spentBy.Some? ==>
          row == after || (after.value.spentBy == Some(plan.txid) && SpendsRow(plan, k)))
  }

  lemma {:induction false} DecisionsTraced(row: Option<Row>, plan: Plan, n: nat, k: Key)
    requires n <= |plan.decisions| && forall i :: 0 <= i < |plan.decisions| ==> plan.decisions[i].applied == plan.txid
    ensures RowTraced(row, DecisionsRow(row, plan, n, k), plan, k)
  {
    if n > 0 {
      DecisionsTraced(row, plan, n - 1, k);
      DecisionTraced(DecisionsRow(row, plan, n - 1, k), plan, n - 1, k);
    }
  }

  lemma DecisionTraced(row: Option<Row>, plan: Plan, i: nat, k: Key)
    requires i < |plan.decisions| && plan.decisions[i].applied == plan.txid
    ensures RowTraced(row, RowAfter(row, plan.decisions[i], plan.txid, k), plan, k)
  {
  }

  /** Others write fences, leases and read versions only; plans apply their own transaction. */
  ghost predicate EventOk(e: Event) {
    match e
    case Foreign(key, row) => (key.FenceKey? && row.FenceRow?) || (key.LeaseKey? && row.LeaseRow?) || key.ReadKey?
    case Admitted(plan) => forall i :: 0 <= i < |plan.decisions| ==> plan.decisions[i].applied == plan.txid
  }

  ghost predicate EventsOk(events: seq<Event>) {
    forall i :: 0 <= i < |events| ==> EventOk(events[i])
  }

  /** Somebody else wrote a row at k; for a fence it is the one that the topic started with. */
  ghost predicate WrittenByOthers(events: seq<Event>, k: Key, row: Row) {
    exists i :: 0 <= i < |events| && events[i].Foreign? && events[i].key == k &&
      (k.FenceKey? && row.FenceRow? && events[i].row.FenceRow? ==> events[i].row.fence.generation == row.fence.generation)
  }

  /** Where a row comes from: a decision or an intent of a committed plan, or for fences and leases somebody else. */
  ghost predicate Traced(events: seq<Event>, k: Key, row: Row) {
    && (k.FenceKey? ==> AccountedFor(PlansOf(events), k, row) || WrittenByOthers(events, k, row))
    && (k.LeaseKey? || k.ReadKey? ==> WrittenByOthers(events, k, row))
    && (!k.FenceKey? && !k.LeaseKey? && !k.ReadKey? ==> AccountedFor(PlansOf(events), k, row))
    && (k.OutputKey? && row.OutputRow? && row.spentBy.Some? ==> SpenderInLog(PlansOf(events), k, row.spentBy.value))
  }

  lemma TraceStays(events: seq<Event>, e: Event, k: Key, row: Row)
    requires Traced(events, k, row)
    ensures Traced(events + [e], k, row)
  {
    var more := events + [e];
    assert more[..|more| - 1] == events;
    var log, log' := PlansOf(events), PlansOf(more);
    assert log <= log';
    if AccountedFor(log, k, row) {
      var i :| 0 <= i < |log| && Accounts(log[i], k, row);
      assert Accounts(log'[i], k, row);
    }
    if WrittenByOthers(events, k, row) {
      var i :| 0 <= i < |events| && events[i].Foreign? && events[i].key == k &&
        (k.FenceKey? && row.FenceRow? && events[i].row.FenceRow? ==> events[i].row.fence.generation == row.fence.generation);
      assert more[i] == events[i];
    }
    if k.OutputKey? && row.OutputRow? && row.spentBy.Some? {
      var i :| 0 <= i < |log| && log[i].txid == row.spentBy.value && SpendsRow(log[i], k);
      assert SpendsRow(log'[i], k);
    }
  }

  lemma AccountedByLast(events: seq<Event>, plan: Plan)
    ensures var log := PlansOf(events + [Admitted(plan)]); log != [] && log[|log| - 1] == plan
  {
    assert (events + [Admitted(plan)])[..|events|] == events;
  }

  lemma EventTraced(events: seq<Event>, e: Event, k: Key, row: Option<Row>)
    requires EventOk(e) && (row.Some? ==> Traced(events, k, row.value))
    ensures EventRow(row, e, k).Some? ==> Traced(events + [e], k, EventRow(row, e, k).value)
  {
    hide RowAfter;
    var more := events + [e];
    assert more[|events|] == e;
    if row.Some? {
      TraceStays(events, e, k, row.value);
    }
    match e
    case Foreign(key, r) =>
      if key == k {
        assert WrittenByOthers(more, k, r);
      }
    case Admitted(plan) =>
      AccountedByLast(events, plan);
      DecisionsTraced(row, plan, |plan.decisions|, k);
      if PlanRow(row, plan, k).Some? {
        PlanTraced(events, plan, k, row, PlanRow(row, plan, k).value);
      }
  }

  lemma PlanTraced(events: seq<Event>, plan: Plan, k: Key, row: Option<Row>, after: Row)
    requires Some(after) == PlanRow(row, plan, k)
    requires RowTraced(row, DecisionsRow(row, plan, |plan.decisions|, k), plan, k)
    requires row.Some? ==> Traced(events + [Admitted(plan)], k, row.value)
    requires var log := PlansOf(events + [Admitted(plan)]); log != [] && log[|log| - 1] == plan
    ensures Traced(events + [Admitted(plan)], k, after)
  {
    hide DecisionsRow, PlansOf;
    var more := events + [Admitted(plan)];
    var log := PlansOf(more);
    if Accounts(plan, k, after) {
      assert Accounts(log[|log| - 1], k, after);
      assert AccountedFor(log, k, after);
    }
    if SpendsRow(plan, k) {
      assert SpendsRow(log[|log| - 1], k);
      assert SpenderInLog(log, k, plan.txid);
    }
    if row.Some? && Some(after) != row && k.OutputKey? {
      SameAccount(log, k, row.value, after);
    }
    if row.Some? && (k.LeaseKey? || k.ReadKey?) {
      assert WrittenByOthers(more, k, row.value);
      assert WrittenByOthers(more, k, after);
    }
  }

  lemma SameAccount(log: seq<Plan>, k: Key, row: Row, after: Row)
    requires k.OutputKey? && AccountedFor(log, k, row)
    ensures AccountedFor(log, k, after)
  {
    var i :| 0 <= i < |log| && Accounts(log[i], k, row);
    assert Accounts(log[i], k, after);
  }

  lemma {:induction false} ReplayedIsTraced(events: seq<Event>, k: Key)
    requires EventsOk(events) && Replay(events, k).Some?
    ensures Traced(events, k, Replay(events, k).value)
  {
    hide EventRow, Traced, EventOk;
    if events != [] {
      var others, last := events[..|events| - 1], events[|events| - 1];
      assert events == others + [last];
      if Replay(others, k).Some? {
        ReplayedIsTraced(others, k);
      }
      EventTraced(others, last, k, Replay(others, k));
    }
  }

  lemma AdmissiblePlanIsOk(history: seq<Db<Key, Row>>, plan: Plan)
    requires WasAdmissible(history, plan)
    ensures EventOk(Admitted(plan))
  {
    forall i | 0 <= i < |plan.decisions|
      ensures plan.decisions[i].applied == plan.txid
    {
      AdmittedPlanFacts(history, plan, i);
    }
  }

  lemma {:induction false} EventsAreOk(states: seq<State>, actions: seq<Action>, n: nat)
    requires Execution(states, actions) && n < |states|
    ensures EventsOk(states[n].events)
  {
    hide Inv, MayApply, Commit, NoConflict, WasAdmissible, EventOk;
    if n > 0 {
      EventsAreOk(states, actions, n - 1);
      assert StepAt(states, actions, n - 1);
      var s, s' := states[n - 1], states[n];
      ExecutionKeepsInv(states, actions, n);
      NewEventIsOk(s, actions[n - 1]);
      StepAddsEvents(s, actions[n - 1]);
    }
  }

  lemma StepAddsEvents(s: State, a: Action)
    requires s.history != []
    ensures s.events <= Step(s, a).events && |Step(s, a).events| <= |s.events| + 1
  {
    hide Commit, MayApply, NoConflict;
  }

  lemma NewEventIsOk(s: State, a: Action)
    requires s.history != [] && Inv(Step(s, a))
    ensures var s' := Step(s, a); |s'.events| > |s.events| ==> EventOk(s'.events[|s.events|])
  {
    hide Commit, MayApply, NoConflict, HistoryInv, ActiveInv, PlanRecorded, PlansApart, WasAdmissible;
    var s' := Step(s, a);
    if a.CommitPlan? && CanCommit(s, a.id) {
      assert WasAdmissible(s'.history, s'.log[|s.log|]);
      AdmissiblePlanIsOk(s'.history, s'.log[|s.log|]);
    }
  }

  /**
   * Every row of every reachable state goes back to the log: an output, edge, applied row or event to a decision or
   * intent of a committed plan, a spender to a committed spend, and a fence's generation to a committed update or to
   * the fence that the topic started with. A plan that is not in the log has left nothing.
   */
  lemma RowsAreAccountedFor(states: seq<State>, actions: seq<Action>, n: nat, k: Key)
    requires Execution(states, actions) && n < |states| && k in RowsOf(states[n])
    ensures Traced(states[n].events, k, RowsOf(states[n])[k])
    ensures PlansOf(states[n].events) == states[n].log
  {
    hide Execution, Traced, Replay, PlansOf, RowsOf;
    RowsAreReplayed(states, actions, n, k);
    EventsAreOk(states, actions, n);
    ReplayedIsTraced(states[n].events, k);
  }
}
