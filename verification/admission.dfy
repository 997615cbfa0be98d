/** Admission plans and the rows they change (pkg/storage/mongodb/admission.go). */
module Admission {
  import opened Snapshot
  import opened Wrappers

  datatype Outpoint = Outpoint(txid: string, index: nat)

  datatype Fence = Fence(chainEpoch: nat, generation: nat)

  /** A recovery lease as its holder knows it. */
  datatype Lease = Lease(topic: string, peerID: string, jobID: string, fence: Fence, token: nat, expiresAt: nat)

  datatype Handoff = Handoff(expected: Lease, checkpoint: string)

  datatype HistoryUpdate = HistoryUpdate(nextGeneration: nat, affectedFrom: nat, handoff: Option<Handoff>)

  datatype Spend = Spend(outpoint: Outpoint, spender: string, expectedVersion: string)

  datatype Edge = Edge(source: Outpoint, consumer: Outpoint)

  datatype Read = Read(key: string, expectedVersion: Option<string>)

  datatype Decision = Decision(
    topic: string, expected: Fence, predicates: seq<Read>, spends: seq<Spend>, evictions: seq<Outpoint>,
    outputs: seq<Outpoint>, edges: seq<Edge>, applied: string, update: Option<HistoryUpdate>)

  datatype OutboxKind = Lookup | Propagation

  datatype Intent = Intent(eventID: string, kind: OutboxKind)

  /** `payloads` are all payload references of a plan: its own, and those of its outputs, proofs and events. */
  datatype Plan = Plan(txid: string, historical: bool, topics: seq<string>, payloads: seq<string>, decisions: seq<Decision>,
                       outbox: seq<Intent>)

  datatype Rejection = ReadConflict | SpendConflict | InvalidPlan

  datatype Key =
    | OutputKey(topic: string, outpoint: Outpoint)
    | EdgeKey(topic: string, edge: Edge)
    | AppliedKey(topic: string, txid: string)
    | FenceKey(topic: string)
    | LeaseKey(topic: string, peerID: string, jobID: string)
    | ReadKey(topic: string, key: string)
    | OutboxKey(eventID: string)

  datatype Row =
    | OutputRow(spent: bool, spentBy: Option<string>, spendVersion: string)
    | EdgeRow
    | AppliedRow
    | FenceRow(fence: Fence, affectedFrom: nat, checkpoint: string)
    | LeaseRow(fence: Fence, token: nat, expiresAt: nat)
    | ReadRow(readVersion: string)
    | OutboxRow

  type Rows = map<Key, Row>

  const InitialSpendVersion := "1"

  const FreshOutput: Row := OutputRow(false, None, InitialSpendVersion)

  // Which rows a decision names

  predicate Spends(d: Decision, n: nat, k: Key)
    requires n <= |d.spends|
  {
    exists i :: 0 <= i < n && k == OutputKey(d.topic, d.spends[i].outpoint)
  }

  predicate Evicts(d: Decision, n: nat, k: Key)
    requires n <= |d.evictions|
  {
    exists i :: 0 <= i < n && k == OutputKey(d.topic, d.evictions[i])
  }

  predicate Inserts(d: Decision, n: nat, k: Key)
    requires n <= |d.outputs|
  {
    exists i :: 0 <= i < n && k == OutputKey(d.topic, d.outputs[i])
  }

  predicate Links(d: Decision, n: nat, k: Key)
    requires n <= |d.edges|
  {
    exists i :: 0 <= i < n && k == EdgeKey(d.topic, d.edges[i])
  }

  function HandoffKey(h: Handoff): Key {
    LeaseKey(h.expected.topic, h.expected.peerID, h.expected.jobID)
  }

  predicate Moves(d: Decision, k: Key) {
    d.update.Some? && d.update.value.handoff.Some? && k == HandoffKey(d.update.value.handoff.value)
  }

  predicate Advances(d: Decision, k: Key) {
    d.update.Some? && k == FenceKey(d.topic)
  }

  // What a decision asks of the rows before it, and what it makes of them

  predicate SpendableAt(rows: Rows, topic: string, s: Spend) {
    var k := OutputKey(topic, s.outpoint);
    k in rows && rows[k].OutputRow? && rows[k].spendVersion == s.expectedVersion && !rows[k].spent
  }

  predicate SpendsHold(rows: Rows, d: Decision, n: nat)
    requires n <= |d.spends|
  {
    && (forall i :: 0 <= i < n ==> SpendableAt(rows, d.topic, d.spends[i]))
    && (forall i, j :: 0 <= i < j < n ==> d.spends[i].outpoint != d.spends[j].outpoint)
  }

  predicate EvictionsHold(rows: Rows, d: Decision, n: nat)
    requires n <= |d.evictions|
  {
    && (forall i :: 0 <= i < n ==> OutputKey(d.topic, d.evictions[i]) in rows)
    && (forall i, j :: 0 <= i < j < n ==> d.evictions[i] != d.evictions[j])
  }

  /** An output may take the place of one that the same decision evicts; validation forbids that separately. */
  predicate OutputsHold(rows: Rows, d: Decision, n: nat)
    requires n <= |d.outputs|
  {
    && (forall i :: 0 <= i < n ==> OutputFree(rows, d, d.outputs[i]))
    && (forall i, j :: 0 <= i < j < n ==> d.outputs[i] != d.outputs[j])
  }

  predicate OutputFree(rows: Rows, d: Decision, o: Outpoint) {
    var k := OutputKey(d.topic, o);
    k !in rows || Evicts(d, |d.evictions|, k)
  }

  predicate LeaseHolds(rows: Rows, h: Handoff, now: nat) {
    var k := HandoffKey(h);
    k in rows && rows[k].LeaseRow? && rows[k].fence == h.expected.fence && rows[k].token == h.expected.token && rows[k].expiresAt > now
  }

  predicate FenceIs(rows: Rows, topic: string, fence: Fence) {
    FenceKey(topic) in rows && rows[FenceKey(topic)].FenceRow? && rows[FenceKey(topic)].fence == fence
  }

  predicate UpdateHolds(rows: Rows, d: Decision, now: nat) {
    d.update.Some? ==>
      && FenceIs(rows, d.topic, d.expected)
      && (d.update.value.handoff.Some? ==>
            && d.update.value.handoff.value.expected.fence == d.expected
            && LeaseHolds(rows, d.update.value.handoff.value, now))
  }

  /** Every conditional write of the decision matches. */
  predicate Writable(rows: Rows, d: Decision, now: nat) {
    && SpendsHold(rows, d, |d.spends|)
    && EvictionsHold(rows, d, |d.evictions|)
    && OutputsHold(rows, d, |d.outputs|)
    && AppliedKey(d.topic, d.applied) !in rows
    && UpdateHolds(rows, d, now)
  }

  function SpentRow(row: Row, spender: string): Row {
    if row.OutputRow? then row.(spent := true, spentBy := Some(spender)) else row
  }

  function AdvancedFence(row: Row, u: HistoryUpdate): Row {
    if !row.FenceRow? then row
    else
      row.(fence := row.fence.(generation := u.nextGeneration), affectedFrom := u.affectedFrom,
           checkpoint := if u.handoff.Some? then u.handoff.value.checkpoint else row.checkpoint)
  }

  function MovedLease(row: Row, u: HistoryUpdate): Row {
    if row.LeaseRow? then row.(fence := row.fence.(generation := u.nextGeneration)) else row
  }

  function OutputAfter(row: Option<Row>, d: Decision, spender: string, k: Key): Option<Row> {
    if Inserts(d, |d.outputs|, k) then Some(FreshOutput)
    else if Evicts(d, |d.evictions|, k) then None
    else if Spends(d, |d.spends|, k) && row.Some? then Some(SpentRow(row.value, spender))
    else row
  }

  /** The row that a decision leaves at k, from the row it found there; rows that it does not name stay. */
  function RowAfter(row: Option<Row>, d: Decision, spender: string, k: Key): Option<Row> {
    match k
    case OutputKey(_, _) => OutputAfter(row, d, spender, k)
    case EdgeKey(_, _) => if Links(d, |d.edges|, k) then Some(EdgeRow) else row
    case AppliedKey(_, _) => if k == AppliedKey(d.topic, d.applied) then Some(AppliedRow) else row
    case FenceKey(_) => if Advances(d, k) && row.Some? then Some(AdvancedFence(row.value, d.update.value)) else row
    case LeaseKey(_, _, _) => if Moves(d, k) && row.Some? then Some(MovedLease(row.value, d.update.value)) else row
    case _ => row
  }

  /** The rows that a decision certainly writes; an edge that is there already is left alone. */
  predicate Touches(d: Decision, k: Key) {
    || Spends(d, |d.spends|, k) || Evicts(d, |d.evictions|, k) || Inserts(d, |d.outputs|, k)
    || k == AppliedKey(d.topic, d.applied) || Advances(d, k) || Moves(d, k)
  }

  predicate SpendersAre(d: Decision, txid: string) {
    forall i :: 0 <= i < |d.spends| ==> d.spends[i].spender == txid
  }

  /** Edges apart, the rows written are those touched. */
  ghost predicate WritesOf(before: set<Key>, after: set<Key>, d: Decision) {
    && before <= after
    && (forall k :: Touches(d, k) ==> k in after)
    && (forall k :: k in after && k !in before ==> Touches(d, k) || Links(d, |d.edges|, k))
  }

  /** Exactly what writeDecisionEffects does to the rows a transaction sees. */
  ghost predicate DecisionEffect(before: Txn<Key, Row>, after: Txn<Key, Row>, d: Decision, spender: string) {
    && after.base == before.base
    && WritesOf(before.writes, after.writes, d)
    && (forall k :: Get(after.view, k) == RowAfter(Get(before.view, k), d, spender, k))
    && (forall k :: k !in after.writes ==> Get(after.view, k) == Get(before.view, k))
  }

  function SpendResult(rows: Rows, d: Decision, n: nat, spender: string, k: Key): Option<Row>
    requires n <= |d.spends|
  {
    if Spends(d, n, k) && k in rows then Some(SpentRow(rows[k], spender)) else Get(rows, k)
  }

  predicate OutputsAbsent(rows: Rows, d: Decision, n: nat)
    requires n <= |d.outputs|
  {
    && (forall i :: 0 <= i < n ==> OutputKey(d.topic, d.outputs[i]) !in rows)
    && (forall i, j :: 0 <= i < j < n ==> d.outputs[i] != d.outputs[j])
  }

  // What each loop of statements does to the rows a transaction sees

  ghost predicate SpendStage(a: Txn<Key, Row>, b: Txn<Key, Row>, d: Decision, spender: string) {
    && b.base == a.base
    && (forall k :: k in b.writes <==> k in a.writes || Spends(d, |d.spends|, k))
    && (forall k :: Get(b.view, k) == SpendResult(a.view, d, |d.spends|, spender, k))
  }

  ghost predicate EvictStage(a: Txn<Key, Row>, b: Txn<Key, Row>, d: Decision) {
    && b.base == a.base
    && (forall k :: k in b.writes <==> k in a.writes || Evicts(d, |d.evictions|, k))
    && (forall k :: Get(b.view, k) == if Evicts(d, |d.evictions|, k) then None else Get(a.view, k))
  }

  ghost predicate OutputStage(a: Txn<Key, Row>, b: Txn<Key, Row>, d: Decision) {
    && b.base == a.base
    && (forall k :: k in b.writes <==> k in a.writes || Inserts(d, |d.outputs|, k))
    && (forall k :: Get(b.view, k) == if Inserts(d, |d.outputs|, k) then Some(FreshOutput) else Get(a.view, k))
  }

  ghost predicate EdgeStage(a: Txn<Key, Row>, b: Txn<Key, Row>, d: Decision) {
    && b.base == a.base
    && a.writes <= b.writes
    && (forall k :: k in b.writes && k !in a.writes ==> Links(d, |d.edges|, k))
    && (forall k :: k !in b.writes ==> Get(b.view, k) == Get(a.view, k))
    && (forall k :: Get(b.view, k) == if Links(d, |d.edges|, k) then Some(EdgeRow) else Get(a.view, k))
  }

  ghost predicate AppliedStage(a: Txn<Key, Row>, b: Txn<Key, Row>, d: Decision) {
    && b == Put(a, AppliedKey(d.topic, d.applied), AppliedRow)
    && (forall k :: Get(b.view, k) == if k == AppliedKey(d.topic, d.applied) then Some(AppliedRow) else Get(a.view, k))
  }

  ghost predicate HistoryStage(a: Txn<Key, Row>, b: Txn<Key, Row>, d: Decision) {
    && b.base == a.base
    && (forall k :: k in b.writes <==> k in a.writes || Advances(d, k) || Moves(d, k))
    && (forall k :: Get(b.view, k) ==
                    if k.FenceKey? || k.LeaseKey? then RowAfter(Get(a.view, k), d, d.applied, k) else Get(a.view, k))
  }

  /** The statements of one transaction. */
  class Session {
    var txn: Txn<Key, Row>

    constructor (base: Db<Key, Row>)
      ensures txn == Begin(base)
    {
      txn := Begin(base);
    }

    method Replace(k: Key, r: Row)
      modifies this
      ensures txn == Put(old(txn), k, r)
      ensures forall x :: Get(txn.view, x) == if x == k then Some(r) else Get(old(txn).view, x)
    {
      txn := Put(txn, k, r);
    }

    method DeleteOne(k: Key) returns (deleted: bool)
      modifies this
      ensures deleted == (k in old(txn).view)
      ensures txn == if deleted then Remove(old(txn), k) else old(txn)
      ensures forall x :: Get(txn.view, x) == if x == k then None else Get(old(txn).view, x)
    {
      deleted := k in txn.view;
      if deleted {
        txn := Remove(txn, k);
      }
    }

    method InsertOne(k: Key, r: Row) returns (inserted: bool)
      modifies this
      ensures inserted == (k !in old(txn).view)
      ensures txn == if inserted then Put(old(txn), k, r) else old(txn)
      ensures inserted ==> forall x :: Get(txn.view, x) == if x == k then Some(r) else Get(old(txn).view, x)
    {
      inserted := k !in txn.view;
      if inserted {
        txn := Put(txn, k, r);
      }
    }

    method WriteSpends(d: Decision, spender: string) returns (r: Result<(), Rejection>)
      requires SpendersAre(d, spender)
      modifies this
      ensures r.Success? <==> SpendsHold(old(txn).view, d, |d.spends|)
      ensures r.Failure? ==> r.error == SpendConflict
      ensures r.Success? ==> SpendStage(old(txn), txn, d, spender)
    {
      var i := 0;
      while i < |d.spends|
        invariant 0 <= i <= |d.spends|
        invariant SpendsHold(old(txn).view, d, i)
        invariant txn.base == old(txn).base
        invariant forall k :: k in txn.writes <==> k in old(txn).writes || Spends(d, i, k)
        invariant forall k :: Get(txn.view, k) == SpendResult(old(txn).view, d, i, spender, k)
      {
        var spend := d.spends[i];
        var k := OutputKey(d.topic, spend.outpoint);
        NextSpend(d, i);
        assert Get(txn.view, k) == SpendResult(old(txn).view, d, i, spender, k);
        if !SpendableAt(txn.view, d.topic, spend) {
          return Failure(SpendConflict);
        }
        Replace(k, SpentRow(txn.view[k], spend.spender));
        i := i + 1;
      }
      return Success(());
    }

    method WriteEvictions(d: Decision) returns (r: Result<(), Rejection>)
      modifies this
      ensures r.Success? <==> EvictionsHold(old(txn).view, d, |d.evictions|)
      ensures r.Failure? ==> r.error == InvalidPlan
      ensures r.Success? ==> EvictStage(old(txn), txn, d)
    {
      var i := 0;
      while i < |d.evictions|
        invariant 0 <= i <= |d.evictions|
        invariant EvictionsHold(old(txn).view, d, i)
        invariant txn.base == old(txn).base
        invariant forall k :: k in txn.writes <==> k in old(txn).writes || Evicts(d, i, k)
        invariant forall k :: Get(txn.view, k) == if Evicts(d, i, k) then None else Get(old(txn).view, k)
      {
        var k := OutputKey(d.topic, d.evictions[i]);
        NextEviction(d, i);
        assert Get(txn.view, k) == if Evicts(d, i, k) then None else Get(old(txn).view, k);
        var deleted := DeleteOne(k);
        if !deleted {
          return Failure(InvalidPlan);
        }
        i := i + 1;
      }
      return Success(());
    }

    method WriteOutputs(d: Decision) returns (r: Result<(), Rejection>)
      modifies this
      ensures r.Success? <==> OutputsAbsent(old(txn).view, d, |d.outputs|)
      ensures r.Failure? ==> r.error == InvalidPlan
      ensures r.Success? ==> OutputStage(old(txn), txn, d)
    {
      var i := 0;
      while i < |d.outputs|
        invariant 0 <= i <= |d.outputs|
        invariant OutputsAbsent(old(txn).view, d, i)
        invariant txn.base == old(txn).base
        invariant forall k :: k in txn.writes <==> k in old(txn).writes || Inserts(d, i, k)
        invariant forall k :: Get(txn.view, k) == if Inserts(d, i, k) then Some(FreshOutput) else Get(old(txn).view, k)
      {
        var k := OutputKey(d.topic, d.outputs[i]);
        NextOutput(d, i);
        assert Get(txn.view, k) == if Inserts(d, i, k) then Some(FreshOutput) else Get(old(txn).view, k);
        var inserted := InsertOne(k, FreshOutput);
        if !inserted {
          return Failure(InvalidPlan);
        }
        i := i + 1;
      }
      return Success(());
    }

    /** A duplicate edge is no error. */
    method WriteEdges(d: Decision)
      requires EdgesTyped(txn.view)
      modifies this
      ensures EdgeStage(old(txn), txn, d)
    {
      var i := 0;
      while i < |d.edges|
        invariant 0 <= i <= |d.edges|
        invariant txn.base == old(txn).base && old(txn).writes <= txn.writes
        invariant forall k :: k in txn.writes && k !in old(txn).writes ==> Links(d, i, k)
        invariant forall k :: k !in txn.writes ==> Get(txn.view, k) == Get(old(txn).view, k)
        invariant forall k :: Get(txn.view, k) == if Links(d, i, k) then Some(EdgeRow) else Get(old(txn).view, k)
      {
        var k := EdgeKey(d.topic, d.edges[i]);
        NextEdge(d, i);
        assert Get(txn.view, k) == if Links(d, i, k) then Some(EdgeRow) else Get(old(txn).view, k);
        var inserted := InsertOne(k, EdgeRow);
        i := i + 1;
      }
    }

    method InsertApplied(d: Decision) returns (r: Result<(), Rejection>)
      modifies this
      ensures r.Success? <==> Get(old(txn).view, AppliedKey(d.topic, d.applied)) == None
      ensures r.Failure? ==> r.error == InvalidPlan
      ensures r.Success? ==> AppliedStage(old(txn), txn, d)
    {
      var inserted := InsertOne(AppliedKey(d.topic, d.applied), AppliedRow);
      if !inserted {
        return Failure(InvalidPlan);
      }
      return Success(());
    }

    method ApplyHistoryUpdate(d: Decision, now: nat) returns (r: Result<(), Rejection>)
      requires d.update.Some?
      modifies this
      ensures r.Success? <==> UpdateHolds(old(txn).view, d, now)
      ensures r.Failure? ==> r.error == ReadConflict
      ensures r.Success? ==> HistoryStage(old(txn), txn, d)
    {
      var u := d.update.value;
      if u.handoff.Some? && u.handoff.value.expected.fence != d.expected {
        return Failure(ReadConflict);
      }
      if !FenceIs(txn.view, d.topic, d.expected) {
        return Failure(ReadConflict);
      }
      Replace(FenceKey(d.topic), AdvancedFence(txn.view[FenceKey(d.topic)], u));
      if u.handoff.None? {
        return Success(());
      }
      var h := u.handoff.value;
      if !LeaseHolds(txn.view, h, now) {
        return Failure(ReadConflict);
      }
      Replace(HandoffKey(h), MovedLease(txn.view[HandoffKey(h)], u));
      return Success(());
    }

    /** The decision goes through exactly when every conditional write matches, and then has exactly its effect. */
    method WriteDecisionEffects(d: Decision, spender: string, now: nat) returns (r: Result<(), Rejection>)
      requires SpendersAre(d, spender) && EdgesTyped(txn.view)
      modifies this
      ensures r.Success? <==> Writable(old(txn).view, d, now)
      ensures r.Success? ==> DecisionEffect(old(txn), txn, d, spender)
    {
      hide SpendsHold, EvictionsHold, OutputsHold, OutputsAbsent, UpdateHolds, DecisionEffect, RowAfter,
        SpendStage, EvictStage, OutputStage, EdgeStage, AppliedStage, HistoryStage;
      ghost var t0 := txn;
      var spends :- WriteSpends(d, spender);
      ghost var t1 := txn;
      SpendsKeepRows(t0, t1, d, spender);
      var evictions :- WriteEvictions(d);
      ghost var t2 := txn;
      FreeOutputs(t0, t1, t2, d, spender);
      var outputs :- WriteOutputs(d);
      ghost var t3 := txn;
      EdgesStayTyped(t0, t1, t2, t3, d, spender);
      WriteEdges(d);
      ghost var t4 := txn;
      OtherRowsStay(t0, t1, t2, t3, t4, d, spender);
      var applied :- InsertApplied(d);
      ghost var t5 := txn;
      SameFences(t4, t5, d, now);
      if d.update.Some? {
        var update :- ApplyHistoryUpdate(d, now);
      } else {
        NoHistoryUpdate(t5, d, now);
      }
      StagesCompose(t0, t1, t2, t3, t4, t5, txn, d, spender);
      return Success(());
    }
  }

  ghost predicate EdgesTyped(rows: Rows) {
    forall k: Key :: k.EdgeKey? ==> Get(rows, k) == None || Get(rows, k) == Some(EdgeRow)
  }

  lemma SpendsKeepRows(t0: Txn<Key, Row>, t1: Txn<Key, Row>, d: Decision, spender: string)
    requires SpendStage(t0, t1, d, spender)
    ensures EvictionsHold(t0.view, d, |d.evictions|) <==> EvictionsHold(t1.view, d, |d.evictions|)
  {
    forall i | 0 <= i < |d.evictions|
      ensures OutputKey(d.topic, d.evictions[i]) in t0.view <==> OutputKey(d.topic, d.evictions[i]) in t1.view
    {
      var k := OutputKey(d.topic, d.evictions[i]);
      assert Get(t1.view, k) == SpendResult(t0.view, d, |d.spends|, spender, k);
    }
  }

  lemma FreeOutputs(t0: Txn<Key, Row>, t1: Txn<Key, Row>, t2: Txn<Key, Row>, d: Decision, spender: string)
    requires SpendStage(t0, t1, d, spender) && EvictStage(t1, t2, d)
    ensures OutputsHold(t0.view, d, |d.outputs|) <==> OutputsAbsent(t2.view, d, |d.outputs|)
  {
    forall i | 0 <= i < |d.outputs|
      ensures OutputFree(t0.view, d, d.outputs[i]) <==> OutputKey(d.topic, d.outputs[i]) !in t2.view
    {
      var k := OutputKey(d.topic, d.outputs[i]);
      assert Get(t1.view, k) == SpendResult(t0.view, d, |d.spends|, spender, k);
      assert Get(t2.view, k) == if Evicts(d, |d.evictions|, k) then None else Get(t1.view, k);
    }
  }

  /** Spends, evictions and outputs are about output rows only. */
  lemma OnlyOutputs(t0: Txn<Key, Row>, t1: Txn<Key, Row>, t2: Txn<Key, Row>, t3: Txn<Key, Row>, d: Decision, spender: string, k: Key)
    requires SpendStage(t0, t1, d, spender) && EvictStage(t1, t2, d) && OutputStage(t2, t3, d)
    requires !k.OutputKey?
    ensures Get(t3.view, k) == Get(t0.view, k)
  {
    assert Get(t1.view, k) == SpendResult(t0.view, d, |d.spends|, spender, k);
    assert Get(t2.view, k) == if Evicts(d, |d.evictions|, k) then None else Get(t1.view, k);
  }

  lemma EdgesStayTyped(t0: Txn<Key, Row>, t1: Txn<Key, Row>, t2: Txn<Key, Row>, t3: Txn<Key, Row>, d: Decision, spender: string)
    requires SpendStage(t0, t1, d, spender) && EvictStage(t1, t2, d) && OutputStage(t2, t3, d)
    requires EdgesTyped(t0.view)
    ensures EdgesTyped(t3.view)
  {
    hide SpendStage, EvictStage, OutputStage;
    forall k: Key | k.EdgeKey?
      ensures Get(t3.view, k) == None || Get(t3.view, k) == Some(EdgeRow)
    {
      OnlyOutputs(t0, t1, t2, t3, d, spender, k);
    }
  }

  lemma OtherRowsStay(t0: Txn<Key, Row>, t1: Txn<Key, Row>, t2: Txn<Key, Row>, t3: Txn<Key, Row>, t4: Txn<Key, Row>,
                      d: Decision, spender: string)
    requires SpendStage(t0, t1, d, spender) && EvictStage(t1, t2, d) && OutputStage(t2, t3, d) && EdgeStage(t3, t4, d)
    ensures Get(t4.view, AppliedKey(d.topic, d.applied)) == Get(t0.view, AppliedKey(d.topic, d.applied))
    ensures forall now :: UpdateHolds(t4.view, d, now) <==> UpdateHolds(t0.view, d, now)
  {
    hide SpendStage, EvictStage, OutputStage;
    forall k: Key | !k.OutputKey? && !k.EdgeKey?
      ensures Get(t4.view, k) == Get(t0.view, k)
    {
      OnlyOutputs(t0, t1, t2, t3, d, spender, k);
    }
    forall now
      ensures UpdateHolds(t4.view, d, now) <==> UpdateHolds(t0.view, d, now)
    {
      SameUpdate(t0.view, t4.view, d, now);
    }
  }

  lemma SameUpdate(rows: Rows, rows': Rows, d: Decision, now: nat)
    requires forall k: Key :: k.FenceKey? || k.LeaseKey? ==> Get(rows', k) == Get(rows, k)
    ensures UpdateHolds(rows', d, now) <==> UpdateHolds(rows, d, now)
  {
    assert Get(rows', FenceKey(d.topic)) == Get(rows, FenceKey(d.topic));
    if d.update.Some? && d.update.value.handoff.Some? {
      var k := HandoffKey(d.update.value.handoff.value);
      assert Get(rows', k) == Get(rows, k);
    }
  }

  lemma SameFences(t4: Txn<Key, Row>, t5: Txn<Key, Row>, d: Decision, now: nat)
    requires AppliedStage(t4, t5, d)
    ensures UpdateHolds(t5.view, d, now) <==> UpdateHolds(t4.view, d, now)
  {
    SameUpdate(t4.view, t5.view, d, now);
  }

  lemma NoHistoryUpdate(t: Txn<Key, Row>, d: Decision, now: nat)
    requires d.update.None?
    ensures HistoryStage(t, t, d) && UpdateHolds(t.view, d, now)
  {
  }

  /** Run one after the other, the stages give the whole effect. */
  lemma StagesCompose(t0: Txn<Key, Row>, t1: Txn<Key, Row>, t2: Txn<Key, Row>, t3: Txn<Key, Row>, t4: Txn<Key, Row>,
                      t5: Txn<Key, Row>, t6: Txn<Key, Row>, d: Decision, spender: string)
    requires SpendStage(t0, t1, d, spender) && EvictStage(t1, t2, d) && OutputStage(t2, t3, d)
    requires EdgeStage(t3, t4, d) && AppliedStage(t4, t5, d) && HistoryStage(t5, t6, d)
    ensures DecisionEffect(t0, t6, d, spender)
  {
    hide SpentRow, AdvancedFence, MovedLease;
    forall k
      ensures Get(t6.view, k) == RowAfter(Get(t0.view, k), d, spender, k)
      ensures k !in t6.writes ==> Get(t6.view, k) == Get(t0.view, k)
    {
      assert Get(t1.view, k) == SpendResult(t0.view, d, |d.spends|, spender, k);
      assert Get(t2.view, k) == if Evicts(d, |d.evictions|, k) then None else Get(t1.view, k);
      assert Get(t3.view, k) == if Inserts(d, |d.outputs|, k) then Some(FreshOutput) else Get(t2.view, k);
      assert Get(t4.view, k) == if Links(d, |d.edges|, k) then Some(EdgeRow) else Get(t3.view, k);
    }
  }

  lemma NextSpend(d: Decision, i: nat)
    requires i < |d.spends|
    ensures forall k :: Spends(d, i + 1, k) <==> Spends(d, i, k) || k == OutputKey(d.topic, d.spends[i].outpoint)
  {
    forall k
      ensures Spends(d, i + 1, k) <==> Spends(d, i, k) || k == OutputKey(d.topic, d.spends[i].outpoint)
    {
      if Spends(d, i, k) {
        var j :| 0 <= j < i && k == OutputKey(d.topic, d.spends[j].outpoint);
      }
    }
  }

  lemma NextEviction(d: Decision, i: nat)
    requires i < |d.evictions|
    ensures forall k :: Evicts(d, i + 1, k) <==> Evicts(d, i, k) || k == OutputKey(d.topic, d.evictions[i])
  {
    forall k
      ensures Evicts(d, i + 1, k) <==> Evicts(d, i, k) || k == OutputKey(d.topic, d.evictions[i])
    {
      if Evicts(d, i, k) {
        var j :| 0 <= j < i && k == OutputKey(d.topic, d.evictions[j]);
      }
    }
  }

  lemma NextOutput(d: Decision, i: nat)
    requires i < |d.outputs|
    ensures forall k :: Inserts(d, i + 1, k) <==> Inserts(d, i, k) || k == OutputKey(d.topic, d.outputs[i])
  {
    forall k
      ensures Inserts(d, i + 1, k) <==> Inserts(d, i, k) || k == OutputKey(d.topic, d.outputs[i])
    {
      if Inserts(d, i, k) {
        var j :| 0 <= j < i && k == OutputKey(d.topic, d.outputs[j]);
      }
    }
  }

  lemma NextEdge(d: Decision, i: nat)
    requires i < |d.edges|
    ensures forall k :: Links(d, i + 1, k) <==> Links(d, i, k) || k == EdgeKey(d.topic, d.edges[i])
  {
    forall k
      ensures Links(d, i + 1, k) <==> Links(d, i, k) || k == EdgeKey(d.topic, d.edges[i])
    {
      if Links(d, i, k) {
        var j :| 0 <= j < i && k == EdgeKey(d.topic, d.edges[j]);
      }
    }
  }
}
