/** The retry loops around a transaction (pkg/storage/mongodb/transaction.go). */
module Transaction {

  datatype Outcome = TransactionAborted | TransactionCommitted | TransactionPending

  /** What an error of a body or of a commit tells: a transient label, or an unknown result (a timeout, say). */
  datatype Reply = Done | Failed(transient: bool, unknown: bool)

  datatype Config = Config(maxBodyAttempts: nat, maxCommitAttempts: nat)

  /**
   * Everything the driver and the server answer in one call: per body attempt k, and per commit attempt c of it.
   * `applied(k)` says whether the transaction of body attempt k became durable in the end.
   */
  datatype Server = Server(
    nested: bool,
    sessionStarts: bool,
    workExpired: nat -> bool,
    transactionStarts: nat -> bool,
    body: nat -> Reply,
    abortAcknowledged: nat -> bool,
    commit: (nat, nat) -> Reply,
    commitBudgetSpent: (nat, nat) -> bool,
    applied: nat -> bool)

  /** The first commit reply names a transient abort, and nothing makes it ambiguous. */
  predicate CommitAborted(server: Server, k: nat) {
    var reply := server.commit(k, 0);
    reply.Failed? && reply.transient && !reply.unknown
  }

  /**
   * What the server promises: a transaction without a commit is not applied, an acknowledged commit is applied, and
   * a first commit that fails with a transient label alone is not.
   */
  ghost predicate Honest(server: Server) {
    forall k: nat ::
      && (server.body(k).Failed? ==> !server.applied(k))
      && (server.body(k).Done? && CommitAborted(server, k) ==> !server.applied(k))
      && (server.body(k).Done? ==> forall c: nat :: server.commit(k, c).Done? ==> server.applied(k))
  }

  /** Evidence that lets a fresh body run. */
  predicate ProvenAborted(server: Server, k: nat) {
    if server.body(k).Failed? then server.body(k).transient && server.abortAcknowledged(k) else CommitAborted(server, k)
  }

  method AbortTransactionAttempt(server: Server, k: nat) returns (retry: bool, failed: bool)
    requires server.body(k).Failed?
    ensures failed <==> !server.abortAcknowledged(k)
    ensures retry <==> ProvenAborted(server, k)
  {
    if !server.abortAcknowledged(k) {
      return false, true;
    }
    return server.body(k).transient, false;
  }

  /** Sends the commit of body attempt k until it is settled; `sent` counts the commits. */
  method CommitTransactionAttempt(server: Server, k: nat, config: Config) returns (outcome: Outcome, retry: bool, sent: nat)
    ensures sent <= config.maxCommitAttempts
    ensures outcome == TransactionCommitted <==> sent > 0 && server.commit(k, sent - 1).Done?
    ensures forall c: nat :: c + 1 < sent ==> server.commit(k, c).Failed? && !server.commitBudgetSpent(k, c)
    ensures sent == 0 <==> config.maxCommitAttempts == 0
    ensures retry <==> outcome == TransactionAborted
    ensures retry <==> config.maxCommitAttempts > 0 && CommitAborted(server, k)
    ensures outcome == TransactionPending && sent < config.maxCommitAttempts ==>
      sent > 0 && server.commitBudgetSpent(k, sent - 1)
  {
    var ambiguous := false;
    sent := 0;
    while sent < config.maxCommitAttempts
      invariant sent <= config.maxCommitAttempts
      invariant forall c: nat :: c < sent ==> server.commit(k, c).Failed? && !server.commitBudgetSpent(k, c)
      invariant ambiguous <==> sent > 0
      invariant sent > 0 ==> !CommitAborted(server, k)
    {
      var reply := server.commit(k, sent);
      sent := sent + 1;
      if reply.Done? {
        return TransactionCommitted, false, sent;
      }
      if reply.unknown {
        ambiguous := true;
      }
      if !ambiguous && reply.transient {
        return TransactionAborted, true, sent;
      }
      if !ambiguous {
        ambiguous := true;
      }
      if server.commitBudgetSpent(k, sent - 1) {
        break;
      }
    }
    return TransactionPending, false, sent;
  }

  ghost predicate NoneApplied(server: Server, bodies: nat) {
    forall k: nat :: k < bodies ==> !server.applied(k)
  }

  /** Every body but the last was proven to be aborted before the next one ran. */
  ghost predicate RerunsProven(server: Server, bodies: nat) {
    forall k: nat :: k + 1 < bodies ==> ProvenAborted(server, k)
  }

  lemma ProvenIsNotApplied(server: Server, k: nat)
    requires Honest(server) && ProvenAborted(server, k)
    ensures !server.applied(k)
  {
  }

  /** A body ran only in a transaction of its own; its commits were sent until one was settled or a budget was spent. */
  ghost predicate BodyRan(server: Server, k: nat, sent: nat, config: Config) {
    && !server.workExpired(k) && server.transactionStarts(k)
    && (server.body(k).Failed? ==> sent == 0)
    && (server.body(k).Done? ==> (sent == 0 <==> config.maxCommitAttempts == 0))
    && (forall c: nat :: c + 1 < sent ==> server.commit(k, c).Failed? && !server.commitBudgetSpent(k, c))
  }

  /** The last commit that was sent for a body was acknowledged. */
  predicate LastCommitDone(server: Server, k: nat, sent: nat) {
    server.body(k).Done? && sent > 0 && server.commit(k, sent - 1).Done?
  }

  /** The commit of a body was never acknowledged, and its first reply was no plain transient abort. */
  predicate CommitUnsettled(server: Server, k: nat, sent: nat) {
    && server.body(k).Done?
    && (sent > 0 ==>
          && server.commit(k, sent - 1).Failed?
          && (server.commit(k, 0).Done? || !server.commit(k, 0).transient || server.commit(k, 0).unknown))
  }

  /** What stops a call before any commit is in doubt. */
  predicate GaveUp(server: Server, config: Config, bodies: nat) {
    || server.nested || !server.sessionStarts || bodies == config.maxBodyAttempts
    || server.workExpired(bodies) || !server.transactionStarts(bodies)
    || (bodies > 0 && server.body(bodies - 1).Failed? &&
          (!server.body(bodies - 1).transient || !server.abortAcknowledged(bodies - 1)))
  }

  /**
   * Runs bodies and commits; commits[k] is the number of commits sent for the k-th body. Committed means that exactly
   * the last body was applied, aborted that none was, and pending that only the last one can have been. Committed is
   * due exactly when the last commit was acknowledged, pending exactly when it is in doubt, and aborted only when
   * something stopped the call.
   */
  method RunTransaction(server: Server, config: Config) returns (outcome: Outcome, commits: seq<nat>)
    requires Honest(server)
    ensures |commits| <= config.maxBodyAttempts
    ensures forall k :: 0 <= k < |commits| ==> commits[k] <= config.maxCommitAttempts
    ensures RerunsProven(server, |commits|)
    ensures outcome == TransactionCommitted ==>
      |commits| > 0 && server.applied(|commits| - 1) && NoneApplied(server, |commits| - 1)
    ensures outcome == TransactionAborted ==> NoneApplied(server, |commits|)
    ensures outcome == TransactionPending ==> |commits| > 0 && NoneApplied(server, |commits| - 1)
    ensures server.nested || !server.sessionStarts ==> commits == []
    ensures forall k :: 0 <= k < |commits| ==> BodyRan(server, k, commits[k], config)
    ensures outcome == TransactionCommitted <==>
      |commits| > 0 && LastCommitDone(server, |commits| - 1, commits[|commits| - 1])
    ensures outcome == TransactionPending <==>
      |commits| > 0 && CommitUnsettled(server, |commits| - 1, commits[|commits| - 1])
    ensures outcome == TransactionPending && 0 < commits[|commits| - 1] < config.maxCommitAttempts ==>
      server.commitBudgetSpent(|commits| - 1, commits[|commits| - 1] - 1)
    ensures outcome == TransactionAborted ==> GaveUp(server, config, |commits|)
  {
    commits := [];
    if server.nested {
      return TransactionAborted, commits;
    }
    if !server.sessionStarts {
      return TransactionAborted, commits;
    }
    var attempt := 0;
    while attempt < config.maxBodyAttempts
      invariant |commits| == attempt <= config.maxBodyAttempts
      invariant forall k :: 0 <= k < |commits| ==> commits[k] <= config.maxCommitAttempts
      invariant forall k :: 0 <= k < |commits| ==> BodyRan(server, k, commits[k], config)
      invariant |commits| > 0 ==> !LastCommitDone(server, |commits| - 1, commits[|commits| - 1])
      invariant |commits| > 0 ==> !CommitUnsettled(server, |commits| - 1, commits[|commits| - 1])
      invariant forall k: nat :: k < attempt ==> ProvenAborted(server, k)
      invariant NoneApplied(server, attempt)
    {
      if server.workExpired(attempt) {
        return TransactionAborted, commits;
      }
      if !server.transactionStarts(attempt) {
        return TransactionAborted, commits;
      }
      if server.body(attempt).Failed? {
        commits := commits + [0];
        var retry, failed := AbortTransactionAttempt(server, attempt);
        if !retry {
          return TransactionAborted, commits;
        }
      } else {
        var commitOutcome, retry, sent := CommitTransactionAttempt(server, attempt, config);
        commits := commits + [sent];
        if !retry {
          return commitOutcome, commits;
        }
      }
      ProvenIsNotApplied(server, attempt);
      attempt := attempt + 1;
    }
    return TransactionAborted, commits;
  }
}
