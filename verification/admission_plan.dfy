/** Whole admission plans: their shape, the state they ask for, and their effect (pkg/storage/mongodb/admission.go). */
module AdmissionPlan {
  import opened Admission
  import opened Snapshot
  import opened Wrappers

  // The shape of a plan

  predicate TopicsDistinct(topics: seq<string>) {
    forall i, j :: 0 <= i < j < |topics| ==> topics[i] != topics[j]
  }

  predicate DecisionsDistinct(decisions: seq<Decision>) {
    forall i, j :: 0 <= i < j < |decisions| ==> decisions[i].topic != decisions[j].topic
  }

  /** The topics of the identity and of the decisions are the same, each once. */
  ghost predicate DecisionsCover(decisions: seq<Decision>, topics: set<string>) {
    DecisionsDistinct(decisions) && DecisionTopics(decisions, |decisions|) == topics
  }

  function DecisionTopics(decisions: seq<Decision>, n: nat): set<string>
    requires n <= |decisions|
  {
    if n == 0 then {} else DecisionTopics(decisions, n - 1) + {decisions[n - 1].topic}
  }

  lemma {:induction false} TopicIsThere(decisions: seq<Decision>, n: nat, i: nat)
    requires i < n <= |decisions|
    ensures decisions[i].topic in DecisionTopics(decisions, n)
  {
    if i < n - 1 {
      TopicIsThere(decisions, n - 1, i);
    }
  }

  lemma {:induction false} TopicOccurs(decisions: seq<Decision>, n: nat, topic: string)
    requires n <= |decisions| && topic in DecisionTopics(decisions, n)
    ensures exists i :: 0 <= i < n && decisions[i].topic == topic
  {
    if topic != decisions[n - 1].topic {
      TopicOccurs(decisions, n - 1, topic);
    }
  }

  lemma {:induction false} TopicsAreFew(decisions: seq<Decision>, n: nat)
    requires n <= |decisions|
    ensures |DecisionTopics(decisions, n)| <= n
  {
    if n > 0 {
      TopicsAreFew(decisions, n - 1);
    }
  }

  /** Counting is enough: as many decisions as topics, all different and all known, leave no topic out. */
  method PlanDecisionsMatch(decisions: seq<Decision>, topics: set<string>) returns (ok: bool)
    ensures ok <==> DecisionsCover(decisions, topics)
  {
    hide DecisionTopics, DecisionsDistinct;
    CountTopics(decisions, |decisions|);
    if |decisions| != |topics| {
      return false;
    }
    var seen: set<string> := {};
    NoTopics(decisions);
    var i := 0;
    while i < |decisions|
      invariant 0 <= i <= |decisions|
      invariant seen == DecisionTopics(decisions, i)
      invariant seen <= topics && |seen| == i
    {
      NextTopic(decisions, i);
      var topic := decisions[i].topic;
      if topic in seen {
        return false;
      }
      if topic !in topics {
        return false;
      }
      seen := seen + {topic};
      i := i + 1;
    }
    FullSubset(seen, topics);
    CountedIsDistinct(decisions, |decisions|);
    assert DecisionsDistinct(decisions) by {
      DistinctMeans(decisions);
    }
    return true;
  }

  lemma DistinctMeans(decisions: seq<Decision>)
    requires forall i, j :: 0 <= i < j < |decisions| ==> decisions[i].topic != decisions[j].topic
    ensures DecisionsDistinct(decisions)
  {
  }

  lemma NoTopics(decisions: seq<Decision>)
    ensures DecisionTopics(decisions, 0) == {}
  {
  }

  lemma NextTopic(decisions: seq<Decision>, i: nat)
    requires i < |decisions|
    ensures DecisionTopics(decisions, i + 1) == DecisionTopics(decisions, i) + {decisions[i].topic}
    ensures decisions[i].topic in DecisionTopics(decisions, i) ==> !DecisionsDistinct(decisions)
    ensures decisions[i].topic in DecisionTopics(decisions, |decisions|)
  {
    if decisions[i].topic in DecisionTopics(decisions, i) {
      TopicOccurs(decisions, i, decisions[i].topic);
    }
    TopicIsThere(decisions, |decisions|, i);
  }

  /** Topics that are as many as their decisions are distinct. */
  lemma {:induction false} CountedIsDistinct(decisions: seq<Decision>, n: nat)
    requires n <= |decisions| && |DecisionTopics(decisions, n)| == n
    ensures forall i, j :: 0 <= i < j < n ==> decisions[i].topic != decisions[j].topic
  {
    if n > 0 {
      TopicsAreFew(decisions, n - 1);
      CountedIsDistinct(decisions, n - 1);
      forall i | 0 <= i < n - 1
        ensures decisions[i].topic != decisions[n - 1].topic
      {
        TopicIsThere(decisions, n - 1, i);
      }
    }
  }

  lemma FullSubset(a: set<string>, b: set<string>)
    requires a <= b && |a| == |b|
    ensures a == b
  {
    assert |b - a| == 0;
    assert b - a == {};
  }

  lemma {:induction false} CountTopics(decisions: seq<Decision>, n: nat)
    requires n <= |decisions|
    ensures DecisionsDistinct(decisions) ==> |DecisionTopics(decisions, n)| == n
  {
    if n > 0 {
      CountTopics(decisions, n - 1);
      if decisions[n - 1].topic in DecisionTopics(decisions, n - 1) {
        TopicOccurs(decisions, n - 1, decisions[n - 1].topic);
      }
    }
  }

  function TopicSet(topics: seq<string>): set<string> {
    set t | t in topics
  }

  /** Remembers the topics seen; a repeated one is refused. */
  method PlanIdentityTopics(names: seq<string>) returns (r: Option<set<string>>)
    ensures r == if TopicsDistinct(names) then Some(TopicSet(names)) else None
  {
    var topics: set<string> := {};
    var i := 0;
    while i < |names|
      invariant 0 <= i <= |names|
      invariant topics == set k | 0 <= k < i :: names[k]
      invariant forall j, k :: 0 <= j < k < i ==> names[j] != names[k]
    {
      if names[i] in topics {
        return None;
      }
      topics := topics + {names[i]};
      i := i + 1;
    }
    forall t | t in names
      ensures t in topics
    {
      var k :| 0 <= k < |names| && names[k] == t;
    }
    assert topics == TopicSet(names);
    return Some(topics);
  }

  predicate OutputsAre(d: Decision, txid: string) {
    forall i :: 0 <= i < |d.outputs| ==> d.outputs[i].txid == txid
  }

  predicate DecisionShape(d: Decision, txid: string) {
    && SpendersAre(d, txid) && OutputsAre(d, txid) && d.applied == txid
    && (d.update.Some? ==> d.update.value.nextGeneration > d.expected.generation)
  }

  predicate OutboxShape(plan: Plan) {
    && (forall i, j :: 0 <= i < j < |plan.outbox| ==> plan.outbox[i].eventID != plan.outbox[j].eventID)
    && (plan.historical ==> forall i :: 0 <= i < |plan.outbox| ==> plan.outbox[i].kind != Propagation)
  }

  predicate OutboxIntentValid(intent: Intent, historical: bool, eventIDs: set<string>) {
    intent.eventID !in eventIDs && (!historical || intent.kind != Propagation)
  }

  method PlanOutboxValid(plan: Plan) returns (ok: bool)
    ensures ok <==> OutboxShape(plan)
  {
    var eventIDs: set<string> := {};
    var i := 0;
    while i < |plan.outbox|
      invariant 0 <= i <= |plan.outbox|
      invariant eventIDs == set k | 0 <= k < i :: plan.outbox[k].eventID
      invariant forall j, k :: 0 <= j < k < i ==> plan.outbox[j].eventID != plan.outbox[k].eventID
      invariant plan.historical ==> forall k :: 0 <= k < i ==> plan.outbox[k].kind != Propagation
    {
      if !OutboxIntentValid(plan.outbox[i], plan.historical, eventIDs) {
        return false;
      }
      eventIDs := eventIDs + {plan.outbox[i].eventID};
      i := i + 1;
    }
    return true;
  }

  /** A plan that refers to no payload at all is refused: its list of references is nil. */
  ghost predicate PlanShape(plan: Plan) {
    && TopicsDistinct(plan.topics)
    && DecisionsCover(plan.decisions, TopicSet(plan.topics))
    && OutboxShape(plan)
    && plan.payloads != []
    && forall i :: 0 <= i < |plan.decisions| ==> DecisionShape(plan.decisions[i], plan.txid)
  }

  method PlanShapeValid(plan: Plan) returns (ok: bool)
    ensures ok <==> PlanShape(plan)
  {
    var topics := PlanIdentityTopics(plan.topics);
    if topics.None? {
      return false;
    }
    var covers := PlanDecisionsMatch(plan.decisions, topics.value);
    if !covers {
      return false;
    }
    var outbox := PlanOutboxValid(plan);
    if !outbox || |plan.payloads| == 0 {
      return false;
    }
    var i := 0;
    while i < |plan.decisions|
      invariant 0 <= i <= |plan.decisions|
      invariant forall j :: 0 <= j < i ==> DecisionShape(plan.decisions[j], plan.txid)
    {
      if !DecisionShape(plan.decisions[i], plan.txid) {
        return false;
      }
      i := i + 1;
    }
    return true;
  }

  // The state a decision asks for

  predicate ReadHolds(rows: Rows, topic: string, read: Read) {
    var k := ReadKey(topic, read.key);
    if k in rows && rows[k].ReadRow? then read.expectedVersion == Some(rows[k].readVersion) else read.expectedVersion == None
  }

  predicate SpendValid(rows: Rows, topic: string, s: Spend) {
    SpendableAt(rows, topic, s) && rows[OutputKey(topic, s.outpoint)].spentBy.None?
  }

  /** The lease sits on the fence that the update advances, belongs to the topic, and has not expired. */
  predicate HandoffValid(rows: Rows, d: Decision, h: Handoff, now: nat) {
    && LeaseHolds(rows, h, now)
    && h.expected.topic == d.topic
    && rows[HandoffKey(h)].fence == d.expected
  }

  predicate DecisionValid(rows: Rows, d: Decision, txid: string, now: nat) {
    && FenceIs(rows, d.topic, d.expected)
    && (forall i :: 0 <= i < |d.predicates| ==> ReadHolds(rows, d.topic, d.predicates[i]))
    && (forall i :: 0 <= i < |d.spends| ==> SpendValid(rows, d.topic, d.spends[i]))
    && (forall i :: 0 <= i < |d.evictions| ==> OutputKey(d.topic, d.evictions[i]) in rows)
    && (forall i :: 0 <= i < |d.outputs| ==> OutputKey(d.topic, d.outputs[i]) !in rows)
    && AppliedKey(d.topic, txid) !in rows
    && (d.update.Some? && d.update.value.handoff.Some? ==> HandoffValid(rows, d, d.update.value.handoff.value, now))
  }

  /** The rejection of the first check that a decision fails. */
  function DecisionRejection(rows: Rows, d: Decision, txid: string, now: nat): Option<Rejection> {
    if !FenceIs(rows, d.topic, d.expected) then Some(ReadConflict)
    else if exists i :: 0 <= i < |d.predicates| && !ReadHolds(rows, d.topic, d.predicates[i]) then Some(ReadConflict)
    else if exists i :: 0 <= i < |d.spends| && !SpendValid(rows, d.topic, d.spends[i]) then Some(SpendConflict)
    else if exists i :: 0 <= i < |d.evictions| && OutputKey(d.topic, d.evictions[i]) !in rows then Some(InvalidPlan)
    else if exists i :: 0 <= i < |d.outputs| && OutputKey(d.topic, d.outputs[i]) in rows then Some(InvalidPlan)
    else if AppliedKey(d.topic, txid) in rows then Some(InvalidPlan)
    else if d.update.Some? && d.update.value.handoff.Some? && !HandoffValid(rows, d, d.update.value.handoff.value, now)
    then Some(ReadConflict)
    else None
  }

  method ValidateDecisionState(rows: Rows, d: Decision, txid: string, now: nat) returns (r: Result<(), Rejection>)
    ensures r.Success? <==> DecisionValid(rows, d, txid, now)
    ensures r.Failure? ==> DecisionRejection(rows, d, txid, now) == Some(r.error)
    ensures r == match FirstMissing(rows, d, txid, now)
                 case None => Success(())
                 case Some(error) => Failure(error)
  {
    ValidMeansFound(rows, d, txid, now);
    hide StateFound, FirstMissing;
    hide ReadHolds, SpendValid, HandoffValid;
    if !FenceIs(rows, d.topic, d.expected) {
      return Failure(ReadConflict);
    }
    for i := 0 to |d.predicates|
      invariant forall j :: 0 <= j < i ==> ReadHolds(rows, d.topic, d.predicates[j])
    {
      if !ReadHolds(rows, d.topic, d.predicates[i]) {
        return Failure(ReadConflict);
      }
    }
    for i := 0 to |d.spends|
      invariant forall j :: 0 <= j < i ==> SpendValid(rows, d.topic, d.spends[j])
    {
      if !SpendValid(rows, d.topic, d.spends[i]) {
        return Failure(SpendConflict);
      }
    }
    for i := 0 to |d.evictions|
      invariant forall j :: 0 <= j < i ==> OutputKey(d.topic, d.evictions[j]) in rows
    {
      if OutputKey(d.topic, d.evictions[i]) !in rows {
        return Failure(InvalidPlan);
      }
    }
    for i := 0 to |d.outputs|
      invariant forall j :: 0 <= j < i ==> OutputKey(d.topic, d.outputs[j]) !in rows
    {
      if OutputKey(d.topic, d.outputs[i]) in rows {
        return Failure(InvalidPlan);
      }
    }
    if AppliedKey(d.topic, txid) in rows {
      return Failure(InvalidPlan);
    }
    if d.update.Some? && d.update.value.handoff.Some? && !HandoffValid(rows, d, d.update.value.handoff.value, now) {
      return Failure(ReadConflict);
    }
    return Success(());
  }

  // The rows that an admissible plan finds, and those that are there afterwards

  /** The row a read expects is there in the expected version, or no read row is there at all. */
  predicate ReadFound(rows: Rows, topic: string, read: Read) {
    match read.expectedVersion
    case Some(version) => Get(rows, ReadKey(topic, read.key)) == Some(ReadRow(version))
    case None => ReadKey(topic, read.key) in rows ==> !rows[ReadKey(topic, read.key)].ReadRow?
  }

  predicate SpendFound(rows: Rows, topic: string, spend: Spend) {
    Get(rows, OutputKey(topic, spend.outpoint)) == Some(OutputRow(false, None, spend.expectedVersion))
  }

  predicate FenceFound(rows: Rows, topic: string, fence: Fence) {
    var row := Get(rows, FenceKey(topic));
    row.Some? && row.value.FenceRow? && row.value == FenceRow(fence, row.value.affectedFrom, row.value.checkpoint)
  }

  /** The stored lease of the holder sits on the fence, carries the holder's token and runs on beyond `now`. */
  predicate LeaseFound(rows: Rows, fence: Fence, lease: Lease, now: nat) {
    var row := Get(rows, LeaseKey(lease.topic, lease.peerID, lease.jobID));
    row.Some? && row.value.LeaseRow? && row.value == LeaseRow(fence, lease.token, row.value.expiresAt) && now < row.value.expiresAt
  }

  predicate HandoffFound(rows: Rows, d: Decision, now: nat) {
    d.update.Some? && d.update.value.handoff.Some? ==>
      var lease := d.update.value.handoff.value.expected;
      lease.topic == d.topic && lease.fence == d.expected && LeaseFound(rows, d.expected, lease, now)
  }

  /** Everything that validation must find for a decision. */
  predicate StateFound(rows: Rows, d: Decision, txid: string, now: nat) {
    && FenceFound(rows, d.topic, d.expected)
    && (forall i :: 0 <= i < |d.predicates| ==> ReadFound(rows, d.topic, d.predicates[i]))
    && (forall i :: 0 <= i < |d.spends| ==> SpendFound(rows, d.topic, d.spends[i]))
    && (forall i :: 0 <= i < |d.evictions| ==> Get(rows, OutputKey(d.topic, d.evictions[i])).Some?)
    && (forall i :: 0 <= i < |d.outputs| ==> Get(rows, OutputKey(d.topic, d.outputs[i])).None?)
    && Get(rows, AppliedKey(d.topic, txid)).None?
    && HandoffFound(rows, d, now)
  }

  /** The rejection of the first thing that is not found. */
  function FirstMissing(rows: Rows, d: Decision, txid: string, now: nat): Option<Rejection> {
    if !FenceFound(rows, d.topic, d.expected) || !(forall i :: 0 <= i < |d.predicates| ==> ReadFound(rows, d.topic, d.predicates[i]))
    then Some(ReadConflict)
    else if !(forall i :: 0 <= i < |d.spends| ==> SpendFound(rows, d.topic, d.spends[i])) then Some(SpendConflict)
    else if !(forall i :: 0 <= i < |d.evictions| ==> Get(rows, OutputKey(d.topic, d.evictions[i])).Some?) then Some(InvalidPlan)
    else if !(forall i :: 0 <= i < |d.outputs| ==> Get(rows, OutputKey(d.topic, d.outputs[i])).None?) then Some(InvalidPlan)
    else if Get(rows, AppliedKey(d.topic, txid)).Some? then Some(InvalidPlan)
    else if !HandoffFound(rows, d, now) then Some(ReadConflict)
    else None
  }

  lemma LeaseIsFound(rows: Rows, h: Handoff, now: nat)
    ensures LeaseHolds(rows, h, now) <==> LeaseFound(rows, h.expected.fence, h.expected, now)
  {
  }

  lemma FenceIsFound(rows: Rows, topic: string, fence: Fence)
    ensures FenceIs(rows, topic, fence) <==> FenceFound(rows, topic, fence)
  {
  }

  lemma ReadIsFound(rows: Rows, topic: string, read: Read)
    ensures ReadHolds(rows, topic, read) <==> ReadFound(rows, topic, read)
  {
  }

  lemma SpendIsFound(rows: Rows, topic: string, s: Spend)
    ensures SpendValid(rows, topic, s) <==> SpendFound(rows, topic, s)
  {
  }

  lemma HandoffIsFound(rows: Rows, d: Decision, now: nat)
    ensures (d.update.Some? && d.update.value.handoff.Some? ==> HandoffValid(rows, d, d.update.value.handoff.value, now)) <==>
            HandoffFound(rows, d, now)
  {
    hide LeaseFound, LeaseHolds;
    if d.update.Some? && d.update.value.handoff.Some? {
      LeaseIsFound(rows, d.update.value.handoff.value, now);
      if LeaseHolds(rows, d.update.value.handoff.value, now) {
        LeaseFence(rows, d.update.value.handoff.value, now);
      }
    }
  }

  lemma LeaseFence(rows: Rows, h: Handoff, now: nat)
    requires LeaseHolds(rows, h, now)
    ensures rows[HandoffKey(h)].fence == h.expected.fence
  {
  }

  /** Validation passes exactly when everything is found, and otherwise answers for the first thing that is missing. */
  lemma ValidMeansFound(rows: Rows, d: Decision, txid: string, now: nat)
    ensures DecisionValid(rows, d, txid, now) <==> StateFound(rows, d, txid, now)
    ensures DecisionRejection(rows, d, txid, now) == FirstMissing(rows, d, txid, now)
    ensures StateFound(rows, d, txid, now) <==> FirstMissing(rows, d, txid, now) == None
  {
    hide FenceIs, FenceFound, ReadHolds, ReadFound, SpendValid, SpendFound, HandoffValid, HandoffFound;
    FenceIsFound(rows, d.topic, d.expected);
    forall i | 0 <= i < |d.predicates|
      ensures ReadHolds(rows, d.topic, d.predicates[i]) <==> ReadFound(rows, d.topic, d.predicates[i])
    {
      ReadIsFound(rows, d.topic, d.predicates[i]);
    }
    forall i | 0 <= i < |d.spends|
      ensures SpendValid(rows, d.topic, d.spends[i]) <==> SpendFound(rows, d.topic, d.spends[i])
    {
      SpendIsFound(rows, d.topic, d.spends[i]);
    }
    HandoffIsFound(rows, d, now);
  }

  /** No output is spent, evicted or inserted twice by a decision. */
  predicate NamesOnce(d: Decision) {
    && (forall i, j :: 0 <= i < j < |d.spends| ==> d.spends[i].outpoint != d.spends[j].outpoint)
    && (forall i, j :: 0 <= i < j < |d.evictions| ==> d.evictions[i] != d.evictions[j])
    && (forall i, j :: 0 <= i < j < |d.outputs| ==> d.outputs[i] != d.outputs[j])
  }

  /** What a plan must say about its own transaction, its topics and its events. */
  ghost predicate PlanSays(plan: Plan) {
    && (forall i, j :: 0 <= i < j < |plan.topics| ==> plan.topics[i] != plan.topics[j])
    && (forall i, j :: 0 <= i < j < |plan.decisions| ==> plan.decisions[i].topic != plan.decisions[j].topic)
    && (forall t :: t in plan.topics <==> DecidesTopic(plan.decisions, t))
    && (forall i, j :: 0 <= i < j < |plan.outbox| ==> plan.outbox[i].eventID != plan.outbox[j].eventID)
    && (forall i :: 0 <= i < |plan.outbox| ==> plan.outbox[i].kind == Lookup || !plan.historical)
    && |plan.payloads| >= 1
    && forall i :: 0 <= i < |plan.decisions| ==> DecisionSays(plan.decisions[i], plan.txid)
  }

  predicate DecisionSays(d: Decision, txid: string) {
    && (forall i :: 0 <= i < |d.spends| ==> txid == d.spends[i].spender)
    && (forall i :: 0 <= i < |d.outputs| ==> txid == d.outputs[i].txid)
    && txid == d.applied
    && (d.update.Some? ==> d.expected.generation < d.update.value.nextGeneration)
  }

  /** Some decision is about the topic. */
  predicate DecidesTopic(decisions: seq<Decision>, topic: string) {
    exists i :: 0 <= i < |decisions| && decisions[i].topic == topic
  }

  lemma TopicsAreDecided(decisions: seq<Decision>, t: string)
    ensures t in DecisionTopics(decisions, |decisions|) <==> DecidesTopic(decisions, t)
  {
    if t in DecisionTopics(decisions, |decisions|) {
      TopicOccurs(decisions, |decisions|, t);
    }
    if i :| 0 <= i < |decisions| && decisions[i].topic == t {
      TopicIsThere(decisions, |decisions|, i);
    }
  }

  lemma CoverMeans(decisions: seq<Decision>, topics: seq<string>)
    ensures DecisionTopics(decisions, |decisions|) == TopicSet(topics) <==>
            forall t :: t in topics <==> DecidesTopic(decisions, t)
  {
    hide DecidesTopic, DecisionTopics;
    var named := DecisionTopics(decisions, |decisions|);
    forall t
      ensures t in named <==> DecidesTopic(decisions, t)
    {
      TopicsAreDecided(decisions, t);
    }
    if forall t :: t in topics <==> DecidesTopic(decisions, t) {
      assert forall t :: t in named <==> t in TopicSet(topics);
    }
  }

  lemma ShapeMeans(plan: Plan)
    ensures PlanShape(plan) <==> PlanSays(plan)
  {
    CoverMeans(plan.decisions, plan.topics);
    forall i | 0 <= i < |plan.decisions|
      ensures DecisionShape(plan.decisions[i], plan.txid) <==> DecisionSays(plan.decisions[i], plan.txid)
    {
    }
    hide DecisionShape, DecisionSays, DecisionTopics, TopicSet, DecidesTopic;
    assert OutboxShape(plan) <==>
      && (forall i, j :: 0 <= i < j < |plan.outbox| ==> plan.outbox[i].eventID != plan.outbox[j].eventID)
      && (forall i :: 0 <= i < |plan.outbox| ==> plan.outbox[i].kind == Lookup || !plan.historical);
  }

  /**
   * All that an accepted plan says and all that it finds: every fence, read, spend, eviction, output, applied row, lease
   * and event, row by row, the leases both when they are checked and when they are moved.
   */
  ghost predicate PlanFits(rows: Rows, plan: Plan, checkedAt: nat, writtenAt: nat) {
    && PlanSays(plan)
    && (forall i :: 0 <= i < |plan.outbox| ==> Get(rows, OutboxKey(plan.outbox[i].eventID)).None?)
    && (forall i :: 0 <= i < |plan.decisions| ==> DecisionFits(rows, plan.decisions[i], plan.txid, checkedAt, writtenAt))
  }

  predicate DecisionFits(rows: Rows, d: Decision, txid: string, checkedAt: nat, writtenAt: nat) {
    StateFound(rows, d, txid, checkedAt) && HandoffFound(rows, d, writtenAt) && NamesOnce(d)
  }

  lemma WritableWhenFound(rows: Rows, d: Decision, txid: string, checkedAt: nat, writtenAt: nat)
    requires DecisionSays(d, txid)
    ensures DecisionValid(rows, d, txid, checkedAt) && Writable(rows, d, writtenAt) <==>
            DecisionFits(rows, d, txid, checkedAt, writtenAt)
  {
    ValidMeansFound(rows, d, txid, checkedAt);
    hide StateFound, FirstMissing, DecisionRejection;
    if DecisionValid(rows, d, txid, checkedAt) {
      FenceIsFound(rows, d.topic, d.expected);
      if d.update.Some? && d.update.value.handoff.Some? {
        LeaseIsFound(rows, d.update.value.handoff.value, writtenAt);
      }
      hide ReadHolds, LeaseHolds, LeaseFound, FenceIs, FenceFound;
      assert forall i :: 0 <= i < |d.spends| ==> SpendableAt(rows, d.topic, d.spends[i]) by {
        assert forall i :: 0 <= i < |d.spends| ==> SpendValid(rows, d.topic, d.spends[i]);
      }
    }
  }

  /** A plan is admissible exactly when it fits, row by row. */
  lemma AdmissibleMeansFits(rows: Rows, plan: Plan, checkedAt: nat, writtenAt: nat)
    ensures Admissible(rows, plan, checkedAt, writtenAt) <==> PlanFits(rows, plan, checkedAt, writtenAt)
  {
    ShapeMeans(plan);
    hide PlanShape, DecisionValid, Writable, DecisionFits, DecisionSays;
    if PlanSays(plan) {
      forall i | 0 <= i < |plan.decisions|
        ensures DecisionValid(rows, plan.decisions[i], plan.txid, checkedAt) && Writable(rows, plan.decisions[i], writtenAt) <==>
                DecisionFits(rows, plan.decisions[i], plan.txid, checkedAt, writtenAt)
      {
        WritableWhenFound(rows, plan.decisions[i], plan.txid, checkedAt, writtenAt);
      }
    }
  }

  // The effect of a whole plan, topic by topic

  function KeyTopic(k: Key): Option<string> {
    match k
    case OutboxKey(_) => None
    case _ => Some(k.topic)
  }

  predicate HandoffOnTopic(d: Decision) {
    d.update.Some? && d.update.value.handoff.Some? ==> d.update.value.handoff.value.expected.topic == d.topic
  }

  ghost predicate DoneAt(t: Txn<Key, Row>, d: Decision, txid: string, k: Key) {
    && Get(t.view, k) == RowAfter(Get(t.base.rows, k), d, txid, k)
    && (Touches(d, k) ==> k in t.writes)
    && (k in t.writes ==> Touches(d, k) || Links(d, |d.edges|, k))
    && (k !in t.writes ==> Get(t.view, k) == Get(t.base.rows, k))
  }

  /** The rows of a decision's topic are exactly what the decision makes of the snapshot. */
  ghost predicate TopicDone(t: Txn<Key, Row>, d: Decision, txid: string) {
    forall k :: KeyTopic(k) == Some(d.topic) ==> DoneAt(t, d, txid, k)
  }

  ghost predicate Untouched(t: Txn<Key, Row>, k: Key) {
    Get(t.view, k) == Get(t.base.rows, k) && k !in t.writes
  }

  ghost predicate Decides(plan: Plan, n: nat, topic: Option<string>)
    requires n <= |plan.decisions|
  {
    exists i :: 0 <= i < n && topic == Some(plan.decisions[i].topic)
  }

  ghost predicate DecisionsDone(t: Txn<Key, Row>, plan: Plan, n: nat)
    requires n <= |plan.decisions|
  {
    && (forall i :: 0 <= i < n ==> TopicDone(t, plan.decisions[i], plan.txid))
    && (forall k :: !Decides(plan, n, KeyTopic(k)) ==> Untouched(t, k))
  }

  predicate OutboxNames(plan: Plan, n: nat, k: Key)
    requires n <= |plan.outbox|
  {
    exists i :: 0 <= i < n && k == OutboxKey(plan.outbox[i].eventID)
  }

  /** Exactly what an accepted plan does: its topics' rows, its outbox events and nothing else. */
  ghost predicate PlanEffect(t: Txn<Key, Row>, plan: Plan) {
    && (forall i :: 0 <= i < |plan.decisions| ==> TopicDone(t, plan.decisions[i], plan.txid))
    && (forall k :: !Decides(plan, |plan.decisions|, KeyTopic(k)) ==>
                      if OutboxNames(plan, |plan.outbox|, k) then Get(t.view, k) == Some(OutboxRow) && k in t.writes
                      else Untouched(t, k))
  }

  lemma OffTopic(d: Decision, txid: string, row: Option<Row>, k: Key)
    requires HandoffOnTopic(d) && KeyTopic(k) != Some(d.topic)
    ensures RowAfter(row, d, txid, k) == row && !Touches(d, k) && !Links(d, |d.edges|, k)
  {
  }

  lemma NextDecision(t: Txn<Key, Row>, t': Txn<Key, Row>, plan: Plan, n: nat)
    requires n < |plan.decisions| && DecisionsDistinct(plan.decisions) && HandoffOnTopic(plan.decisions[n])
    requires DecisionsDone(t, plan, n) && DecisionEffect(t, t', plan.decisions[n], plan.txid)
    ensures DecisionsDone(t', plan, n + 1)
  {
    hide RowAfter, Touches, HandoffOnTopic;
    var d := plan.decisions[n];
    forall i, k | 0 <= i <= n && KeyTopic(k) == Some(plan.decisions[i].topic)
      ensures DoneAt(t', plan.decisions[i], plan.txid, k)
    {
      assert Get(t'.view, k) == RowAfter(Get(t.view, k), d, plan.txid, k);
      if i < n {
        assert DoneAt(t, plan.decisions[i], plan.txid, k);
        OffTopic(d, plan.txid, Get(t.view, k), k);
      } else {
        assert Untouched(t, k);
      }
    }
    forall k | !Decides(plan, n + 1, KeyTopic(k))
      ensures Untouched(t', k)
    {
      assert KeyTopic(k) != Some(d.topic);
      assert !Decides(plan, n, KeyTopic(k));
      OffTopic(d, plan.txid, Get(t.view, k), k);
    }
  }

  /** What a decision needs and finds depends on the rows of its topic only. */
  lemma WritableIsLocal(rows: Rows, rows': Rows, d: Decision, now: nat)
    requires HandoffOnTopic(d)
    requires forall k :: KeyTopic(k) == Some(d.topic) ==> Get(rows', k) == Get(rows, k)
    ensures Writable(rows', d, now) <==> Writable(rows, d, now)
  {
    forall i | 0 <= i < |d.spends|
      ensures SpendableAt(rows, d.topic, d.spends[i]) <==> SpendableAt(rows', d.topic, d.spends[i])
    {
      assert Get(rows', OutputKey(d.topic, d.spends[i].outpoint)) == Get(rows, OutputKey(d.topic, d.spends[i].outpoint));
    }
    forall i | 0 <= i < |d.evictions|
      ensures OutputKey(d.topic, d.evictions[i]) in rows <==> OutputKey(d.topic, d.evictions[i]) in rows'
    {
      assert Get(rows', OutputKey(d.topic, d.evictions[i])) == Get(rows, OutputKey(d.topic, d.evictions[i]));
    }
    forall i | 0 <= i < |d.outputs|
      ensures OutputFree(rows, d, d.outputs[i]) <==> OutputFree(rows', d, d.outputs[i])
    {
      assert Get(rows', OutputKey(d.topic, d.outputs[i])) == Get(rows, OutputKey(d.topic, d.outputs[i]));
    }
    assert Get(rows', AppliedKey(d.topic, d.applied)) == Get(rows, AppliedKey(d.topic, d.applied));
    assert Get(rows', FenceKey(d.topic)) == Get(rows, FenceKey(d.topic));
    if d.update.Some? && d.update.value.handoff.Some? {
      var k := HandoffKey(d.update.value.handoff.value);
      assert Get(rows', k) == Get(rows, k);
    }
  }

  predicate OutboxAbsent(rows: Rows, plan: Plan) {
    forall i :: 0 <= i < |plan.outbox| ==> OutboxKey(plan.outbox[i].eventID) !in rows
  }

  /** When a plan is accepted on a snapshot: its predicates hold when checked and its writes match when made. */
  ghost predicate Admissible(rows: Rows, plan: Plan, checkedAt: nat, writtenAt: nat) {
    && PlanShape(plan)
    && OutboxAbsent(rows, plan)
    && (forall i :: 0 <= i < |plan.decisions| ==> DecisionValid(rows, plan.decisions[i], plan.txid, checkedAt))
    && (forall i :: 0 <= i < |plan.decisions| ==> Writable(rows, plan.decisions[i], writtenAt))
  }

  ghost predicate AllValid(rows: Rows, plan: Plan, now: nat, n: nat)
    requires n <= |plan.decisions|
  {
    forall i :: 0 <= i < n ==> DecisionValid(rows, plan.decisions[i], plan.txid, now)
  }

  ghost predicate AllWritable(rows: Rows, plan: Plan, now: nat, n: nat)
    requires n <= |plan.decisions|
  {
    forall i :: 0 <= i < n ==> Writable(rows, plan.decisions[i], now)
  }

  lemma ValidHandoff(rows: Rows, d: Decision, txid: string, now: nat)
    requires DecisionValid(rows, d, txid, now)
    ensures HandoffOnTopic(d)
  {
  }

  lemma EffectKeepsEdgesTyped(t: Txn<Key, Row>, t': Txn<Key, Row>, d: Decision, spender: string)
    requires EdgesTyped(t.view) && DecisionEffect(t, t', d, spender)
    ensures EdgesTyped(t'.view)
  {
    forall k: Key | k.EdgeKey?
      ensures Get(t'.view, k) == None || Get(t'.view, k) == Some(EdgeRow)
    {
      assert Get(t'.view, k) == RowAfter(Get(t.view, k), d, spender, k);
    }
  }

  /** The rows of a decision's topic afterwards, field by field; a row that the decision does not name is as it was. */
  ghost predicate DecisionRows(before: Rows, after: Rows, d: Decision, txid: string) {
    forall k :: KeyTopic(k) == Some(d.topic) ==> RowIs(Get(before, k), Get(after, k), d, txid, k)
  }

  ghost predicate RowIs(row: Option<Row>, row': Option<Row>, d: Decision, txid: string, k: Key) {
    match k
    case OutputKey(_, o) =>
      if o in d.outputs then row' == Some(OutputRow(false, None, "1"))
      else if o in d.evictions then row' == None
      else if exists i :: 0 <= i < |d.spends| && d.spends[i].outpoint == o
      then row.Some? && row.value.OutputRow? && row' == Some(OutputRow(true, Some(txid), row.value.spendVersion))
      else row' == row
    case EdgeKey(_, edge) => row' == if edge in d.edges then Some(EdgeRow) else row
    case AppliedKey(_, applied) => row' == if applied == txid then Some(AppliedRow) else row
    case FenceKey(_) =>
      if d.update.None? then row' == row
      else
        var u := d.update.value;
        && row.Some? && row.value.FenceRow?
        && row' == Some(FenceRow(Fence(d.expected.chainEpoch, u.nextGeneration), u.affectedFrom,
                                 if u.handoff.Some? then u.handoff.value.checkpoint else row.value.checkpoint))
    case LeaseKey(_, peer, job) =>
      if HandsOff(d, peer, job)
      then
        && row.Some? && row.value.LeaseRow?
        && row' == Some(LeaseRow(Fence(d.expected.chainEpoch, d.update.value.nextGeneration), row.value.token, row.value.expiresAt))
      else row' == row
    case _ => row' == row
  }

  predicate HandsOff(d: Decision, peer: string, job: string) {
    && d.update.Some? && d.update.value.handoff.Some?
    && d.update.value.handoff.value.expected.peerID == peer && d.update.value.handoff.value.expected.jobID == job
  }

  /** The rows afterwards: those of each decision, the events, and nothing else. */
  ghost predicate PlanRows(before: Rows, after: Rows, plan: Plan) {
    && (forall i :: 0 <= i < |plan.decisions| ==> DecisionRows(before, after, plan.decisions[i], plan.txid))
    && (forall i :: 0 <= i < |plan.outbox| ==> Get(after, OutboxKey(plan.outbox[i].eventID)) == Some(OutboxRow))
    && (forall k: Key :: k.OutboxKey? && (forall i :: 0 <= i < |plan.outbox| ==> plan.outbox[i].eventID != k.eventID) ==>
          Get(after, k) == Get(before, k))
    && (forall k: Key :: !k.OutboxKey? && !DecidesTopic(plan.decisions, k.topic) ==> Get(after, k) == Get(before, k))
  }

  /** The effect on a row that is still as validation found it, or that the decision need not find. */
  lemma RowAfterIs(rows: Rows, row: Option<Row>, d: Decision, txid: string, checkedAt: nat, k: Key)
    requires StateFound(rows, d, txid, checkedAt) && DecisionSays(d, txid) && KeyTopic(k) == Some(d.topic)
    requires Touches(d, k) ==> row == Get(rows, k)
    ensures RowIs(row, RowAfter(row, d, txid, k), d, txid, k)
  {
    hide ReadFound;
    match k
    case OutputKey(_, o) =>
      assert Inserts(d, |d.outputs|, k) <==> o in d.outputs;
      assert Evicts(d, |d.evictions|, k) <==> o in d.evictions;
      assert Spends(d, |d.spends|, k) <==> exists i :: 0 <= i < |d.spends| && d.spends[i].outpoint == o;
    case EdgeKey(_, edge) => assert Links(d, |d.edges|, k) <==> edge in d.edges;
    case _ =>
  }

  /** An accepted plan leaves exactly these rows. */
  lemma EffectMeansRows(t: Txn<Key, Row>, plan: Plan, checkedAt: nat, writtenAt: nat)
    requires PlanFits(t.base.rows, plan, checkedAt, writtenAt) && PlanEffect(t, plan)
    ensures PlanRows(t.base.rows, t.view, plan)
  {
    hide StateFound, HandoffFound, NamesOnce, RowIs, RowAfter, DecisionSays, Touches;
    forall i, k | 0 <= i < |plan.decisions| && KeyTopic(k) == Some(plan.decisions[i].topic)
      ensures RowIs(Get(t.base.rows, k), Get(t.view, k), plan.decisions[i], plan.txid, k)
    {
      assert DoneAt(t, plan.decisions[i], plan.txid, k);
      RowAfterIs(t.base.rows, Get(t.base.rows, k), plan.decisions[i], plan.txid, checkedAt, k);
    }
    forall k: Key | k.OutboxKey?
      ensures if OutboxNames(plan, |plan.outbox|, k) then Get(t.view, k) == Some(OutboxRow) else Get(t.view, k) == Get(t.base.rows, k)
    {
      assert !Decides(plan, |plan.decisions|, KeyTopic(k));
    }
    forall i | 0 <= i < |plan.outbox|
      ensures OutboxNames(plan, |plan.outbox|, OutboxKey(plan.outbox[i].eventID))
    {
    }
    forall k: Key | !k.OutboxKey? && !DecidesTopic(plan.decisions, k.topic)
      ensures Get(t.view, k) == Get(t.base.rows, k)
    {
      assert !Decides(plan, |plan.decisions|, KeyTopic(k));
      assert Untouched(t, k);
    }
  }

  method WriteDecisions(session: Session, plan: Plan, now: nat) returns (r: Result<(), Rejection>)
    requires DecisionsDistinct(plan.decisions) && DecisionsDone(session.txn, plan, 0) && EdgesTyped(session.txn.view)
    requires forall i :: 0 <= i < |plan.decisions| ==>
      HandoffOnTopic(plan.decisions[i]) && SpendersAre(plan.decisions[i], plan.txid)
    modifies session
    ensures r.Success? <==> AllWritable(old(session.txn).base.rows, plan, now, |plan.decisions|)
    ensures r.Success? ==> session.txn.base == old(session.txn).base && DecisionsDone(session.txn, plan, |plan.decisions|)
  {
    hide DecisionsDone, Writable, DecisionEffect, EdgesTyped, HandoffOnTopic, SpendersAre;
    ghost var rows := session.txn.base.rows;
    var i := 0;
    while i < |plan.decisions|
      invariant 0 <= i <= |plan.decisions|
      invariant session.txn.base == old(session.txn).base
      invariant DecisionsDone(session.txn, plan, i) && EdgesTyped(session.txn.view)
      invariant AllWritable(rows, plan, now, i)
    {
      ghost var before := session.txn;
      UndecidedIsLocal(before, plan, i, now);
      var written :- session.WriteDecisionEffects(plan.decisions[i], plan.txid, now);
      assert DecisionEffect(before, session.txn, plan.decisions[i], plan.txid);
      NextDecision(before, session.txn, plan, i);
      EffectKeepsEdgesTyped(before, session.txn, plan.decisions[i], plan.txid);
      EffectKeepsBase(before, session.txn, plan.decisions[i], plan.txid);
      i := i + 1;
    }
    return Success(());
  }

  lemma EffectKeepsBase(t: Txn<Key, Row>, t': Txn<Key, Row>, d: Decision, spender: string)
    requires DecisionEffect(t, t', d, spender)
    ensures t'.base == t.base
  {
  }

  lemma UndecidedIsLocal(t: Txn<Key, Row>, plan: Plan, n: nat, now: nat)
    requires n < |plan.decisions| && DecisionsDistinct(plan.decisions) && HandoffOnTopic(plan.decisions[n])
    requires DecisionsDone(t, plan, n)
    ensures Writable(t.view, plan.decisions[n], now) <==> Writable(t.base.rows, plan.decisions[n], now)
  {
    hide Writable, HandoffOnTopic;
    var d := plan.decisions[n];
    forall k | KeyTopic(k) == Some(d.topic)
      ensures Get(t.view, k) == Get(t.base.rows, k)
    {
      assert !Decides(plan, n, KeyTopic(k));
      assert Untouched(t, k);
    }
    WritableIsLocal(t.base.rows, t.view, d, now);
  }

  ghost predicate OutboxDone(t: Txn<Key, Row>, plan: Plan, n: nat)
    requires n <= |plan.outbox|
  {
    && (forall i :: 0 <= i < |plan.decisions| ==> TopicDone(t, plan.decisions[i], plan.txid))
    && (forall k :: !Decides(plan, |plan.decisions|, KeyTopic(k)) ==>
                      if OutboxNames(plan, n, k) then Get(t.view, k) == Some(OutboxRow) && k in t.writes else Untouched(t, k))
  }

  lemma NextIntent(t: Txn<Key, Row>, plan: Plan, n: nat)
    requires n < |plan.outbox| && OutboxShape(plan) && OutboxAbsent(t.base.rows, plan) && OutboxDone(t, plan, n)
    ensures var k := OutboxKey(plan.outbox[n].eventID);
      k !in t.view && OutboxDone(Put(t, k, OutboxRow), plan, n + 1)
  {
    var key := OutboxKey(plan.outbox[n].eventID);
    var t' := Put(t, key, OutboxRow);
    assert !OutboxNames(plan, n, key);
    assert KeyTopic(key) == None && !Decides(plan, |plan.decisions|, None);
    assert Untouched(t, key);
    forall i, k | 0 <= i < |plan.decisions| && KeyTopic(k) == Some(plan.decisions[i].topic)
      ensures DoneAt(t', plan.decisions[i], plan.txid, k)
    {
      assert DoneAt(t, plan.decisions[i], plan.txid, k);
      assert Get(t'.view, k) == Get(t.view, k);
    }
    forall k | !Decides(plan, |plan.decisions|, KeyTopic(k))
      ensures if OutboxNames(plan, n + 1, k) then Get(t'.view, k) == Some(OutboxRow) && k in t'.writes else Untouched(t', k)
    {
      assert OutboxNames(plan, n + 1, k) <==> OutboxNames(plan, n, k) || k == key;
    }
  }

  lemma DecisionsThenOutbox(t: Txn<Key, Row>, plan: Plan)
    requires DecisionsDone(t, plan, |plan.decisions|)
    ensures OutboxDone(t, plan, 0)
  {
  }

  /** No insert of an outbox event can meet a duplicate: validation found none, and the plan names each once. */
  method WriteOutbox(session: Session, plan: Plan)
    requires OutboxShape(plan) && OutboxAbsent(session.txn.base.rows, plan) && OutboxDone(session.txn, plan, 0)
    modifies session
    ensures session.txn.base == old(session.txn).base
    ensures OutboxDone(session.txn, plan, |plan.outbox|)
  {
    hide OutboxDone, OutboxShape, OutboxAbsent;
    var i := 0;
    while i < |plan.outbox|
      invariant 0 <= i <= |plan.outbox|
      invariant session.txn.base == old(session.txn).base
      invariant OutboxDone(session.txn, plan, i)
    {
      NextIntent(session.txn, plan, i);
      var inserted := session.InsertOne(OutboxKey(plan.outbox[i].eventID), OutboxRow);
      i := i + 1;
    }
  }

  method ValidateAdmissionState(rows: Rows, plan: Plan, now: nat) returns (r: Result<(), Rejection>)
    ensures r.Success? <==> OutboxAbsent(rows, plan) && AllValid(rows, plan, now, |plan.decisions|)
  {
    hide DecisionValid;
    for i := 0 to |plan.outbox|
      invariant forall j :: 0 <= j < i ==> OutboxKey(plan.outbox[j].eventID) !in rows
    {
      if OutboxKey(plan.outbox[i].eventID) in rows {
        return Failure(InvalidPlan);
      }
    }
    for i := 0 to |plan.decisions|
      invariant AllValid(rows, plan, now, i)
    {
      var valid :- ValidateDecisionState(rows, plan.decisions[i], plan.txid, now);
    }
    return Success(());
  }

  /**
   * The body of an admission: it is accepted exactly when it is admissible on the snapshot, and an accepted plan has
   * exactly its effect on the rows the transaction sees.
   */
  method ApplyAdmission(base: Db<Key, Row>, plan: Plan, checkedAt: nat, writtenAt: nat)
    returns (r: Result<Txn<Key, Row>, Rejection>)
    requires EdgesTyped(base.rows)
    ensures r.Success? <==> Admissible(base.rows, plan, checkedAt, writtenAt)
    ensures r.Success? <==> PlanFits(base.rows, plan, checkedAt, writtenAt)
    ensures r.Success? ==> r.value.base == base && PlanEffect(r.value, plan)
    ensures r.Success? ==> PlanRows(base.rows, r.value.view, plan)
  {
    AdmissibleMeansFits(base.rows, plan, checkedAt, writtenAt);
    hide PlanShape, DecisionValid, Writable, EdgesTyped, DecisionsDone, OutboxDone, OutboxAbsent, PlanFits, PlanRows;
    var shape := PlanShapeValid(plan);
    if !shape {
      return Failure(InvalidPlan);
    }
    var session := new Session(base);
    var valid :- ValidateAdmissionState(session.txn.view, plan, checkedAt);
    ShapeParts(base, plan, checkedAt);
    var decisions :- WriteDecisions(session, plan, writtenAt);
    DecisionsThenOutbox(session.txn, plan);
    WriteOutbox(session, plan);
    assert PlanEffect(session.txn, plan) by {
      OutboxEndsPlan(session.txn, plan);
    }
    EffectMeansRows(session.txn, plan, checkedAt, writtenAt);
    return Success(session.txn);
  }

  lemma OutboxEndsPlan(t: Txn<Key, Row>, plan: Plan)
    requires OutboxDone(t, plan, |plan.outbox|)
    ensures PlanEffect(t, plan)
  {
  }

  lemma ShapeParts(base: Db<Key, Row>, plan: Plan, checkedAt: nat)
    requires PlanShape(plan) && AllValid(base.rows, plan, checkedAt, |plan.decisions|)
    ensures DecisionsDistinct(plan.decisions) && OutboxShape(plan) && DecisionsDone(Begin(base), plan, 0)
    ensures forall i :: 0 <= i < |plan.decisions| ==>
      HandoffOnTopic(plan.decisions[i]) && SpendersAre(plan.decisions[i], plan.txid)
  {
    hide DecisionValid, HandoffOnTopic;
    forall i | 0 <= i < |plan.decisions|
      ensures HandoffOnTopic(plan.decisions[i])
    {
      ValidHandoff(base.rows, plan.decisions[i], plan.txid, checkedAt);
    }
  }
}
