/** What pins and releases leave behind, told from the actions of a run and its rows (pkg/storage/mongodb/payload.go). */
module PayloadRuns {
  import opened Bytes
  import opened Payload
  import opened Snapshot
  import opened Wrappers

  // Transactions in a run

  ghost predicate Applied(states: seq<State>, actions: seq<Action>, i: nat)
    requires i < |actions| && i < |states|
  {
    states[i].history != [] && Next(states[i], actions[i]).Some?
  }

  /** The transaction ends with this action. */
  ghost predicate Ends(states: seq<State>, actions: seq<Action>, i: nat, id: nat)
    requires i < |actions| && i < |states|
  {
    actions[i] == AbortTxn(id) || (actions[i] == CommitTxn(id) && Applied(states, actions, i))
  }

  /** Nothing ends the transaction between two points of a run. */
  ghost predicate GoesOn(states: seq<State>, actions: seq<Action>, id: nat, i: nat, j: nat)
    requires j <= |actions| && j <= |states|
  {
    forall x :: i <= x < j ==> !Ends(states, actions, x, id)
  }

  ghost predicate PinsAt(states: seq<State>, actions: seq<Action>, i: nat, id: nat, ref: Key)
    requires i < |actions| && i < |states|
  {
    actions[i].PinIn? && actions[i].id == id && actions[i].ref == ref && Applied(states, actions, i)
  }

  ghost predicate ReleasesAt(states: seq<State>, actions: seq<Action>, i: nat, id: nat, ref: Key)
    requires i < |actions| && i < |states|
  {
    actions[i].ReleaseIn? && actions[i].id == id && actions[i].ref == ref && Applied(states, actions, i)
  }

  ghost predicate CommitsAt(states: seq<State>, actions: seq<Action>, i: nat, id: nat)
    requires i < |actions| && i < |states|
  {
    actions[i] == CommitTxn(id) && Applied(states, actions, i)
  }

  /** A transaction that commits at step j pinned a reference at step p and did not release it after that. */
  ghost predicate PinCommits(states: seq<State>, actions: seq<Action>, id: nat, ref: Key, p: nat, j: nat)
    requires |actions| <= |states|
  {
    && p < j < |actions| && PinsAt(states, actions, p, id, ref) && CommitsAt(states, actions, j, id)
    && GoesOn(states, actions, id, p, j)
    && forall x :: p < x < j ==> !ReleasesAt(states, actions, x, id, ref)
  }

  /** A transaction that released a reference commits at step j. */
  ghost predicate ReleaseCommits(states: seq<State>, actions: seq<Action>, ref: Key, j: nat)
    requires j < |actions| <= |states|
  {
    exists id, p: nat :: p < j && ReleasesAt(states, actions, p, id, ref) && GoesOn(states, actions, id, p, j) &&
                         CommitsAt(states, actions, j, id)
  }

  // Inside a transaction

  ghost predicate Pinned(s: State, id: nat, ref: Key, length: nat) {
    id in s.active && ref in s.active[id].writes && Get(s.active[id].view, ref) == Some(ReferenceRow(length))
  }

  ghost predicate Unpinned(s: State, id: nat, ref: Key) {
    id in s.active && ref in s.active[id].writes && ref !in s.active[id].view
  }

  ghost predicate EndsNow(s: State, a: Action, id: nat)
    requires s.history != []
  {
    a == AbortTxn(id) || (a == CommitTxn(id) && Next(s, a).Some?)
  }

  lemma PinPins(s: State, id: nat, ref: Key, length: nat)
    requires s.history != [] && Next(s, PinIn(id, ref, length)).Some?
    ensures Pinned(Step(s, PinIn(id, ref, length)), id, ref, length) && ref.ReferenceKey?
  {
  }

  lemma PinnedStays(s: State, a: Action, id: nat, ref: Key, length: nat)
    requires Inv(s) && s.history != [] && ref.ReferenceKey? && Pinned(s, id, ref, length) && !EndsNow(s, a, id)
    requires a.ReleaseIn? && a.id == id && a.ref == ref ==> Next(s, a).None?
    ensures Pinned(Step(s, a), id, ref, length)
  {
    hide HistoryInv, Commit, NoConflict;
    assert RetainedAt(s.active[id].view, ref);
  }

  lemma {:induction false} PinnedUntil(states: seq<State>, actions: seq<Action>, id: nat, ref: Key, length: nat, p: nat, q: nat)
    requires Execution(states, actions) && p < q < |states|
    requires actions[p] == PinIn(id, ref, length) && Applied(states, actions, p) && GoesOn(states, actions, id, p, q)
    requires forall x :: p < x < q ==> !ReleasesAt(states, actions, x, id, ref)
    ensures Pinned(states[q], id, ref, length) && ref.ReferenceKey?
    decreases q
  {
    assert StepAt(states, actions, q - 1);
    if q == p + 1 {
      PinPins(states[p], id, ref, length);
    } else {
      PinnedUntil(states, actions, id, ref, length, p, q - 1);
      ExecutionKeepsInv(states, actions, q - 1);
      assert !Ends(states, actions, q - 1, id) && !ReleasesAt(states, actions, q - 1, id, ref);
      PinnedStays(states[q - 1], actions[q - 1], id, ref, length);
    }
  }

  /** A release removes what it finds; finding nothing it changes nothing. */
  lemma ReleaseReleases(s: State, id: nat, ref: Key, length: nat)
    requires s.history != [] && Next(s, ReleaseIn(id, ref, length)).Some?
    ensures ref.ReferenceKey? && id in s.active
    ensures ref in s.active[id].view ==> Unpinned(Step(s, ReleaseIn(id, ref, length)), id, ref)
    ensures ref !in s.active[id].view ==> Step(s, ReleaseIn(id, ref, length)).active[id] == s.active[id]
  {
  }

  lemma UnpinnedStays(s: State, a: Action, id: nat, ref: Key)
    requires s.history != [] && ref.ReferenceKey? && Unpinned(s, id, ref) && !EndsNow(s, a, id)
    requires a.PinIn? && a.id == id && a.ref == ref ==> Next(s, a).None?
    ensures Unpinned(Step(s, a), id, ref)
  {
    hide Commit, NoConflict;
  }

  lemma {:induction false} UnpinnedUntil(states: seq<State>, actions: seq<Action>, id: nat, ref: Key, p: nat, q: nat)
    requires Execution(states, actions) && p <= q < |states|
    requires ref.ReferenceKey? && Unpinned(states[p], id, ref) && GoesOn(states, actions, id, p, q)
    requires forall x :: p <= x < q ==> !PinsAt(states, actions, x, id, ref)
    ensures Unpinned(states[q], id, ref)
    decreases q
  {
    if p < q {
      UnpinnedUntil(states, actions, id, ref, p, q - 1);
      assert StepAt(states, actions, q - 1);
      assert !Ends(states, actions, q - 1, id) && !PinsAt(states, actions, q - 1, id, ref);
      UnpinnedStays(states[q - 1], actions[q - 1], id, ref);
    }
  }

  lemma CommitWrites(s: State, id: nat, k: Key)
    requires s.history != [] && Next(s, CommitTxn(id)).Some?
    ensures id in s.active
    ensures Get(RowsOf(Step(s, CommitTxn(id))), k) == if k in s.active[id].writes then Get(s.active[id].view, k) else Get(RowsOf(s), k)
  {
    hide Commit, NoConflict;
    CommitAt(Current(s), s.active[id], k);
  }

  // Why a reference is there, or not there

  /** A transaction that lost a reference of its snapshot released it. */
  ghost predicate Lost(s: State, id: nat, ref: Key) {
    id in s.active && ref in s.active[id].base.rows && ref !in s.active[id].view
  }

  /** A transaction that has a reference its snapshot had not pinned it. */
  ghost predicate Gained(s: State, id: nat, ref: Key) {
    id in s.active && ref !in s.active[id].base.rows && ref in s.active[id].view
  }

  lemma LossIsRelease(s: State, a: Action, id: nat, ref: Key)
    requires s.history != [] && ref.ReferenceKey? && Lost(Step(s, a), id, ref)
    ensures !EndsNow(s, a, id)
    ensures Lost(s, id, ref) || (a.ReleaseIn? && a.id == id && a.ref == ref && Next(s, a).Some?)
  {
    hide Commit, NoConflict;
  }

  lemma GainIsPin(s: State, a: Action, id: nat, ref: Key)
    requires s.history != [] && ref.ReferenceKey? && Gained(Step(s, a), id, ref)
    ensures !EndsNow(s, a, id)
    ensures Gained(s, id, ref) || (a.PinIn? && a.id == id && a.ref == ref && Next(s, a).Some?)
  {
    hide Commit, NoConflict;
  }

  lemma {:induction false} LostWasReleased(states: seq<State>, actions: seq<Action>, n: nat, id: nat, ref: Key)
    requires Execution(states, actions) && n < |states| && ref.ReferenceKey? && Lost(states[n], id, ref)
    ensures exists p: nat :: p < n && ReleasesAt(states, actions, p, id, ref) && GoesOn(states, actions, id, p, n)
  {
    if n > 0 {
      assert StepAt(states, actions, n - 1);
      LossIsRelease(states[n - 1], actions[n - 1], id, ref);
      if Lost(states[n - 1], id, ref) {
        LostWasReleased(states, actions, n - 1, id, ref);
        var p: nat :| p < n - 1 && ReleasesAt(states, actions, p, id, ref) && GoesOn(states, actions, id, p, n - 1);
        assert GoesOn(states, actions, id, p, n);
      } else {
        assert ReleasesAt(states, actions, n - 1, id, ref) && GoesOn(states, actions, id, n - 1, n);
      }
    }
  }

  lemma {:induction false} GainedWasPinned(states: seq<State>, actions: seq<Action>, n: nat, id: nat, ref: Key)
    requires Execution(states, actions) && n < |states| && ref.ReferenceKey? && Gained(states[n], id, ref)
    ensures exists p: nat :: p < n && PinsAt(states, actions, p, id, ref) && GoesOn(states, actions, id, p, n)
  {
    if n > 0 {
      assert StepAt(states, actions, n - 1);
      GainIsPin(states[n - 1], actions[n - 1], id, ref);
      if Gained(states[n - 1], id, ref) {
        GainedWasPinned(states, actions, n - 1, id, ref);
        var p: nat :| p < n - 1 && PinsAt(states, actions, p, id, ref) && GoesOn(states, actions, id, p, n - 1);
        assert GoesOn(states, actions, id, p, n);
      } else {
        assert PinsAt(states, actions, n - 1, id, ref) && GoesOn(states, actions, id, n - 1, n);
      }
    }
  }

  /** A committing transaction that wrote a reference found it in its snapshot as it is now. */
  lemma WrittenReference(s: State, id: nat, ref: Key)
    requires Inv(s) && s.history != [] && Next(s, CommitTxn(id)).Some? && ref.ReferenceKey? && ref in s.active[id].writes
    ensures Get(s.active[id].base.rows, ref) == Get(RowsOf(s), ref)
    ensures ref in RowsOf(s) && ref in s.active[id].view ==> Get(s.active[id].view, ref) == Get(RowsOf(s), ref)
  {
    hide Commit, Follows, DbInv;
    var t := s.active[id];
    assert TxnInv(t, s.now) && PayloadKey(ref.digest) in t.writes;
    assert LaterAt(t.base, Current(s), ref.digest);
    assert WrittenPayload(t.base.rows, t.view, ref.digest, s.now);
    if ref in RowsOf(s) && ref in t.view {
      assert DbInv(Current(s));
      RetainedRow(Current(s), ref);
      assert RetainedAt(t.view, ref);
      FollowsLength(t.base.rows, t.view, ref.digest, s.now);
    }
  }

  lemma RetainedRow(db: Db<Key, Row>, ref: Key)
    requires DbInv(db) && ref in db.rows && ref.ReferenceKey?
    ensures RetainedAt(db.rows, ref)
  {
  }

  lemma FollowsLength(base: Rows, view: Rows, digest: string, now: nat)
    requires WrittenPayload(base, view, digest, now) && PayloadKey(digest) in base
    ensures PayloadKey(digest) in view && base[PayloadKey(digest)].PayloadRow? && view[PayloadKey(digest)].PayloadRow?
    ensures base[PayloadKey(digest)].length == view[PayloadKey(digest)].length
  {
  }

  /** A step keeps a reference, and the payload row it is to, unless it commits a transaction that lost the reference. */
  lemma ReferenceStep(s: State, a: Action, ref: Key)
    requires Inv(s) && s.history != [] && ref.ReferenceKey? && ref in RowsOf(s)
    requires a.CommitTxn? && Next(s, a).Some? ==> !Lost(s, a.id, ref)
    ensures Get(RowsOf(Step(s, a)), ref) == Get(RowsOf(s), ref)
    ensures PayloadAt(RowsOf(Step(s, a)), ref.digest) == PayloadAt(RowsOf(s), ref.digest)
  {
    assert DbInv(Current(s));
    RetainedRow(Current(s), ref);
    if a.CommitTxn? && Next(s, a).Some? {
      StepKeepsInv(s, a);
      CommitWrites(s, a.id, ref);
      if ref in s.active[a.id].writes {
        WrittenReference(s, a.id, ref);
      }
      CommittedPayload(s, a.id, ref.digest);
      assert DbInv(Current(Step(s, a)));
      RetainedRow(Current(Step(s, a)), ref);
    }
    hide Inv, HistoryInv, ActiveInv, Commit, Pin, Release, ClaimExpired, DbInv, NoConflict;
  }

  // Main results

  /** A pin that commits leaves its reference, of its length, to a ready payload. */
  lemma CommittedPinRefers(states: seq<State>, actions: seq<Action>, id: nat, ref: Key, p: nat, j: nat)
    requires Execution(states, actions) && PinCommits(states, actions, id, ref, p, j)
    ensures ref.ReferenceKey? && Get(RowsOf(states[j + 1]), ref) == Some(ReferenceRow(actions[p].length))
    ensures RetainedAt(RowsOf(states[j + 1]), ref)
  {
    PinnedUntil(states, actions, id, ref, actions[p].length, p, j);
    assert StepAt(states, actions, j);
    CommitWrites(states[j], id, ref);
    hide Execution, RetainedAt;
    ReferencesAreRetained(states, actions, j + 1, ref);
  }

  /**
   * A reference stays, with its payload ready and on the same token, until a transaction that released it commits,
   * whatever is collected, recycled, pinned, released and committed meanwhile.
   */
  lemma {:induction false} ReferenceStays(states: seq<State>, actions: seq<Action>, i: nat, k: nat, ref: Key)
    requires Execution(states, actions) && i <= k < |states| && ref.ReferenceKey? && ref in RowsOf(states[i])
    requires forall j :: i <= j < k ==> !ReleaseCommits(states, actions, ref, j)
    ensures Get(RowsOf(states[k]), ref) == Get(RowsOf(states[i]), ref)
    ensures PayloadAt(RowsOf(states[k]), ref.digest) == PayloadAt(RowsOf(states[i]), ref.digest)
    ensures RetainedAt(RowsOf(states[k]), ref)
    decreases k
  {
    hide RetainedAt, ReleasesAt, GoesOn, Inv, Step, Lost, PayloadAt;
    if i < k {
      var s, a := states[k - 1], actions[k - 1];
      ReferenceStays(states, actions, i, k - 1, ref);
      assert StepAt(states, actions, k - 1);
      ExecutionKeepsInv(states, actions, k - 1);
      if a.CommitTxn? && Next(s, a).Some? && Lost(s, a.id, ref) {
        assert CommitsAt(states, actions, k - 1, a.id) && !ReleaseCommits(states, actions, ref, k - 1);
        LostWasReleased(states, actions, k - 1, a.id, ref);
      }
      ReferenceStep(s, a, ref);
    }
    ReferencesAreRetained(states, actions, k, ref);
  }

  /** Pinned means kept: from the commit of a pin on, the reference and its payload stay until a release commits. */
  lemma PinRetains(states: seq<State>, actions: seq<Action>, id: nat, ref: Key, p: nat, j: nat, k: nat)
    requires Execution(states, actions) && PinCommits(states, actions, id, ref, p, j) && j < k < |states|
    requires forall m :: j < m < k ==> !ReleaseCommits(states, actions, ref, m)
    ensures ref.ReferenceKey? && Get(RowsOf(states[k]), ref) == Some(ReferenceRow(actions[p].length))
    ensures var row, first := PayloadAt(RowsOf(states[k]), ref.digest), PayloadAt(RowsOf(states[j + 1]), ref.digest);
      row.Some? && row.value.state == Ready && row.value.length == actions[p].length && row == first
  {
    hide Execution, PinCommits, ReleaseCommits;
    assert |states| == |actions| + 1 by {
      StatesPerAction(states, actions);
    }
    assert j < |actions| by {
      assert PinCommits(states, actions, id, ref, p, j);
      CommitIsAction(states, actions, id, ref, p, j);
    }
    CommittedPinRefers(states, actions, id, ref, p, j);
    ReferenceStays(states, actions, j + 1, k, ref);
  }

  lemma StatesPerAction(states: seq<State>, actions: seq<Action>)
    requires Execution(states, actions)
    ensures |states| == |actions| + 1
  {
  }

  lemma CommitIsAction(states: seq<State>, actions: seq<Action>, id: nat, ref: Key, p: nat, j: nat)
    requires |actions| <= |states| && PinCommits(states, actions, id, ref, p, j)
    ensures j < |actions|
  {
  }

  /** A reference is there only because a pin of it committed. */
  lemma {:induction false} ReferenceWasPinned(states: seq<State>, actions: seq<Action>, n: nat, ref: Key)
    requires Execution(states, actions) && n < |states| && ref.ReferenceKey? && ref in RowsOf(states[n])
    ensures exists id, p: nat, j: nat :: p < j < n && PinsAt(states, actions, p, id, ref) && GoesOn(states, actions, id, p, j) &&
              CommitsAt(states, actions, j, id)
  {
    assert StatesMatch(states, actions, n);
    if n > 0 {
      var s, a := states[n - 1], actions[n - 1];
      assert StepAt(states, actions, n - 1);
      ExecutionKeepsInv(states, actions, n - 1);
      if ref in RowsOf(s) {
        ReferenceWasPinned(states, actions, n - 1, ref);
      } else {
        NewReference(s, a, ref);
        GainedWasPinned(states, actions, n - 1, a.id, ref);
        assert CommitsAt(states, actions, n - 1, a.id);
      }
    }
  }

  ghost predicate StatesMatch(states: seq<State>, actions: seq<Action>, n: nat) {
    |states| == |actions| + 1 && n <= |actions|
  }

  lemma NewReference(s: State, a: Action, ref: Key)
    requires Inv(s) && s.history != [] && ref.ReferenceKey? && ref !in RowsOf(s) && ref in RowsOf(Step(s, a))
    ensures a.CommitTxn? && Next(s, a).Some? && Gained(s, a.id, ref)
  {
    if a.CommitTxn? && Next(s, a).Some? {
      CommitWrites(s, a.id, ref);
      if ref in s.active[a.id].writes {
        WrittenReference(s, a.id, ref);
      }
    }
    hide Inv, HistoryInv, ActiveInv, Commit, Pin, Release, ClaimExpired, NoConflict;
  }

  /**
   * After the commit of a release, without a later pin in its transaction, the reference is gone exactly when the
   * release found it, or the transaction had written it before, or nobody has it when the transaction commits.
   */
  lemma CommittedRelease(states: seq<State>, actions: seq<Action>, id: nat, ref: Key, p: nat, j: nat)
    requires Execution(states, actions) && p < j < |actions|
    requires ReleasesAt(states, actions, p, id, ref) && CommitsAt(states, actions, j, id) && GoesOn(states, actions, id, p, j)
    requires forall x :: p < x < j ==> !PinsAt(states, actions, x, id, ref)
    ensures id in states[p].active
    ensures ref !in RowsOf(states[j + 1]) <==>
            ref in states[p].active[id].view || ref in states[p].active[id].writes || ref !in RowsOf(states[j])
  {
    assert StepAt(states, actions, p) && StepAt(states, actions, j);
    ReleaseReleases(states[p], id, ref, actions[p].length);
    CommitWrites(states[j], id, ref);
    var t := states[p].active[id];
    if ref in t.view || ref in t.writes {
      UnpinnedUntil(states, actions, id, ref, p + 1, j);
    } else {
      AloneUntil(states, actions, id, ref, p + 1, j);
    }
  }

  /** A run in which a release commits and leaves the reference: another transaction pinned it after the snapshot. */
  lemma ReleaseCanFindNothing() returns (states: seq<State>, actions: seq<Action>, ref: Key)
    ensures Execution(states, actions) && |actions| == 8 && ref.ReferenceKey?
    ensures ReleasesAt(states, actions, 6, 0, ref) && GoesOn(states, actions, 0, 6, 7) && CommitsAt(states, actions, 7, 0)
    ensures ref in RowsOf(states[8])
  {
    hide Step, Next, RowsOf, Pinned, Alone, PayloadAt;
    ref := ReferenceKey("scope", "admission", "operation", "raw", "d");
    var s1, s2 := PublishedPayload(ref);
    var s3, s4, s5 := TwoTransactions(s2, ref);
    var s6, s7, s8 := PinThenRelease(s5, ref);
    actions := [InsertUploadingRow("d", 5, "node", 1), PublishRow("d", "node", 1, 1), BeginTxn(0, 2), BeginTxn(1, 2),
                PinIn(1, ref, 5), CommitTxn(1), ReleaseIn(0, ref, 5), CommitTxn(0)];
    states := [Initial, s1, s2, s3, s4, s5, s6, s7, s8];
    assert StepAt(states, actions, 0) && StepAt(states, actions, 1) && StepAt(states, actions, 2) && StepAt(states, actions, 3);
    assert StepAt(states, actions, 4) && StepAt(states, actions, 5) && StepAt(states, actions, 6) && StepAt(states, actions, 7);
  }

  lemma PublishedPayload(ref: Key) returns (s1: State, s2: State)
    requires ref.ReferenceKey?
    ensures s1 == Step(Initial, InsertUploadingRow("d", 5, "node", 1))
    ensures s1.history != [] && s2 == Step(s1, PublishRow("d", "node", 1, 1))
    ensures |s2.history| == 3 && s2.active == map[]
    ensures PayloadAt(RowsOf(s2), "d") == Some(PayloadRow(5, Ready, "node", 1, 1)) && ref !in RowsOf(s2)
  {
    s1 := Step(Initial, InsertUploadingRow("d", 5, "node", 1));
    assert Get(Current(s1).rows, PayloadKey("d")) == Some(PayloadRow(5, Uploading, "node", 1, 1));
    s2 := Step(s1, PublishRow("d", "node", 1, 1));
  }

  lemma TwoTransactions(s: State, ref: Key) returns (s3: State, s4: State, s5: State)
    requires |s.history| == 3 && s.active == map[] && ref.ReferenceKey? && ref.digest == "d" && ref !in RowsOf(s)
    requires PayloadAt(RowsOf(s), "d") == Some(PayloadRow(5, Ready, "node", 1, 1))
    ensures s3 == Step(s, BeginTxn(0, 2)) && s3.history == s.history
    ensures s4 == Step(s3, BeginTxn(1, 2)) && s4.history == s.history
    ensures s5 == Step(s4, PinIn(1, ref, 5)) && s5.history == s.history
    ensures Pinned(s5, 1, ref, 5) && s5.active[1].base == Current(s)
    ensures Alone(s5, 0, ref) && s5.active[0].writes == {}
  {
    s3 := Step(s, BeginTxn(0, 2));
    s4 := Step(s3, BeginTxn(1, 2));
    assert s4.active[1] == Begin(Current(s)) && s4.active[0] == Begin(Current(s));
    s5 := Step(s4, PinIn(1, ref, 5));
    assert Next(s4, PinIn(1, ref, 5)).Some?;
    assert s5.active[0] == s4.active[0];
    PinPins(s4, 1, ref, 5);
  }

  lemma PinThenRelease(s: State, ref: Key) returns (s6: State, s7: State, s8: State)
    requires s.history != [] && ref.ReferenceKey?
    requires Pinned(s, 1, ref, 5) && s.active[1].base == Current(s) && Alone(s, 0, ref) && s.active[0].writes == {}
    ensures s6 == Step(s, CommitTxn(1)) && Next(s, CommitTxn(1)).Some? && s6.history != []
    ensures s7 == Step(s6, ReleaseIn(0, ref, 5)) && Next(s6, ReleaseIn(0, ref, 5)).Some? && s7.history != []
    ensures s8 == Step(s7, CommitTxn(0)) && Next(s7, CommitTxn(0)).Some? && ref in RowsOf(s8)
  {
    PinnedCommit(s, 1, ref, 5);
    s6 := Step(s, CommitTxn(1));
    assert s6.active[0] == s.active[0];
    s7 := Step(s6, ReleaseIn(0, ref, 5));
    ReleaseReleases(s6, 0, ref, 5);
    assert s7.history == s6.history && s7.active[0] == s6.active[0];
    s8 := Step(s7, CommitTxn(0));
    CommitWrites(s7, 0, ref);
  }

  lemma PinnedCommit(s: State, id: nat, ref: Key, length: nat)
    requires s.history != [] && Pinned(s, id, ref, length) && NoConflict(Current(s), s.active[id])
    ensures Next(s, CommitTxn(id)).Some?
    ensures Get(RowsOf(Step(s, CommitTxn(id))), ref) == Some(ReferenceRow(length))
    ensures forall other :: other in s.active && other != id ==>
      other in Step(s, CommitTxn(id)).active && Step(s, CommitTxn(id)).active[other] == s.active[other]
    ensures Step(s, CommitTxn(id)).history != []
  {
    CommitWrites(s, id, ref);
    hide Commit, NoConflict;
  }

  /** The transaction knows nothing of the reference. */
  ghost predicate Alone(s: State, id: nat, ref: Key) {
    id in s.active && ref !in s.active[id].writes && ref !in s.active[id].view
  }

  lemma AloneStays(s: State, a: Action, id: nat, ref: Key)
    requires s.history != [] && ref.ReferenceKey? && Alone(s, id, ref) && !EndsNow(s, a, id)
    requires a.PinIn? && a.id == id && a.ref == ref ==> Next(s, a).None?
    ensures Alone(Step(s, a), id, ref)
  {
    hide Commit, NoConflict;
  }

  lemma {:induction false} AloneUntil(states: seq<State>, actions: seq<Action>, id: nat, ref: Key, p: nat, q: nat)
    requires Execution(states, actions) && p <= q < |states|
    requires ref.ReferenceKey? && Alone(states[p], id, ref) && GoesOn(states, actions, id, p, q)
    requires forall x :: p <= x < q ==> !PinsAt(states, actions, x, id, ref)
    ensures Alone(states[q], id, ref)
    decreases q
  {
    if p < q {
      AloneUntil(states, actions, id, ref, p, q - 1);
      assert StepAt(states, actions, q - 1);
      assert !Ends(states, actions, q - 1, id) && !PinsAt(states, actions, q - 1, id, ref);
      AloneStays(states[q - 1], actions[q - 1], id, ref);
    }
  }

  // What each action needs and does

  function PayloadIn(rows: Rows, digest: string): Option<Row> {
    Get(rows, PayloadKey(digest))
  }

  /** The row is a payload's, in the state and under the token. */
  predicate IsPayload(row: Option<Row>, state: PayloadState, token: nat) {
    row.Some? && row.value.PayloadRow? && row.value.state == state && row.value.token == token
  }

  /** When an action applies, told from rows. */
  ghost predicate Enabled(s: State, a: Action)
    requires s.history != []
  {
    var rows := Current(s).rows;
    match a
    case Tick(_) => true
    case InsertUploadingRow(digest, _, _, _) => PayloadIn(rows, digest) == None
    case RecycleRow(digest, readAt, length, _, _) =>
      && readAt < |s.history|
      && var read := PayloadIn(s.history[readAt].rows, digest);
         && read.Some? && read.value.PayloadRow? && read.value.state == Deleted && read.value.length == length
         && read.value.token + 1 < TwoTo64 && IsPayload(PayloadIn(rows, digest), Deleted, read.value.token)
    case ResumeRow(digest, owner, token, _) =>
      IsPayload(PayloadIn(rows, digest), Uploading, token) && rows[PayloadKey(digest)].owner == owner
    case PublishRow(digest, owner, token, _) =>
      && IsPayload(PayloadIn(rows, digest), Uploading, token)
      && rows[PayloadKey(digest)].owner == owner && s.now < rows[PayloadKey(digest)].leaseUntil
    case FinishDeletionRow(digest, token) => IsPayload(PayloadIn(rows, digest), Deleting, token)
    case BeginTxn(id, snapshot) => id !in s.active && snapshot < |s.history|
    case PinIn(id, ref, length) => id in s.active && ref.ReferenceKey? && ReadyIn(s.active[id].view, ref.digest, length)
    case ReleaseIn(id, ref, length) =>
      id in s.active && ref.ReferenceKey? && (ref in s.active[id].view ==> ReadyIn(s.active[id].view, ref.digest, length))
    case ClaimIn(id, digest, oldState, oldToken, _, _) =>
      && id in s.active && oldState in {Uploading, Ready} && oldToken + 1 < TwoTo64
      && IsPayload(PayloadIn(s.active[id].view, digest), oldState, oldToken)
      && s.active[id].view[PayloadKey(digest)].leaseUntil <= s.now
      && forall k: Key :: k.ReferenceKey? && k.digest == digest ==> k !in s.active[id].view
    case CommitTxn(id) =>
      id in s.active && forall k :: k in s.active[id].writes ==> Version(Current(s), k) == Version(s.active[id].base, k)
    case AbortTxn(_) => true
  }

  predicate ReadyIn(rows: Rows, digest: string, length: nat) {
    var row := PayloadIn(rows, digest);
    row.Some? && row.value.PayloadRow? && row.value.state == Ready && row.value.length == length
  }

  /** The payload row that a single update leaves, from the row it found. */
  function RowMade(row: Option<Row>, a: Action, now: nat): Option<Row> {
    match a
    case InsertUploadingRow(_, length, owner, lease) => Some(PayloadRow(length, Uploading, owner, 1, now + lease))
    case RecycleRow(_, _, length, owner, lease) =>
      if row.Some? && row.value.PayloadRow? then Some(PayloadRow(length, Uploading, owner, row.value.token + 1, now + lease))
      else row
    case ResumeRow(_, owner, token, lease) =>
      if row.Some? && row.value.PayloadRow? then Some(PayloadRow(row.value.length, Uploading, owner, token, now + lease)) else row
    case PublishRow(_, owner, token, lease) =>
      if row.Some? && row.value.PayloadRow? then Some(PayloadRow(row.value.length, Ready, owner, token, now + lease)) else row
    case FinishDeletionRow(_, token) =>
      if row.Some? && row.value.PayloadRow?
      then Some(PayloadRow(row.value.length, Deleted, row.value.owner, token, row.value.leaseUntil)) else row
    case _ => row
  }

  predicate Updates(a: Action, digest: string) {
    (a.InsertUploadingRow? || a.RecycleRow? || a.ResumeRow? || a.PublishRow? || a.FinishDeletionRow?) && a.digest == digest
  }

  /** An action applies exactly when its rows allow it, and outside transactions one payload row changes as it says. */
  lemma ActionsApply(s: State, a: Action, k: Key)
    requires Inv(s) && s.history != []
    ensures Next(s, a).Some? <==> Enabled(s, a)
    ensures Enabled(s, a) && !a.CommitTxn? ==>
      Get(RowsOf(Step(s, a)), k) ==
        if k.PayloadKey? && Updates(a, k.digest) then RowMade(Get(RowsOf(s), k), a, s.now) else Get(RowsOf(s), k)
  {
    hide HistoryInv, ActiveInv, Commit, Update, Pin, Release, ClaimExpired, Recycle, ResumeUpload, Publish, FinishDeletion;
    if a.RecycleRow? || a.ResumeRow? || a.PublishRow? || a.FinishDeletionRow? || a.InsertUploadingRow? {
      RowUpdatesApply(s, a, k);
    } else {
      StatementsApply(s, a);
    }
  }

  /** Time only passes by ticks, sessions are apart, and each begins on the snapshot it names and ends when it should. */
  lemma SessionsAreApart(s: State, a: Action, other: nat)
    requires s.history != []
    ensures var s' := Step(s, a);
      && s'.now == s.now + (if a.Tick? then a.elapsed else 0)
      && (Names(a, other) || (other in s'.active <==> other in s.active))
      && (!Names(a, other) && other in s.active ==> s'.active[other] == s.active[other])
      && (EndsNow(s, a, other) ==> other !in s'.active)
      && (a.BeginTxn? && a.id == other && other !in s.active && a.snapshot < |s.history| ==>
            other in s'.active && s'.active[other] == Txn(s.history[a.snapshot], s.history[a.snapshot].rows, {}))
  {
    hide Commit, NoConflict, Pin, Release, ClaimExpired, Recycle, ResumeUpload, Publish, FinishDeletion;
  }

  predicate Names(a: Action, id: nat) {
    (a.BeginTxn? || a.PinIn? || a.ReleaseIn? || a.ClaimIn? || a.CommitTxn? || a.AbortTxn?) && a.id == id
  }

  lemma RowUpdatesApply(s: State, a: Action, k: Key)
    requires s.history != []
    requires a.InsertUploadingRow? || a.RecycleRow? || a.ResumeRow? || a.PublishRow? || a.FinishDeletionRow?
    ensures Next(s, a).Some? <==> Enabled(s, a)
    ensures Enabled(s, a) ==>
      Get(RowsOf(Step(s, a)), k) == if k.PayloadKey? && Updates(a, k.digest) then RowMade(Get(RowsOf(s), k), a, s.now) else Get(RowsOf(s), k)
  {
  }

  lemma StatementsApply(s: State, a: Action)
    requires s.history != [] && !a.InsertUploadingRow? && !a.RecycleRow? && !a.ResumeRow? && !a.PublishRow? && !a.FinishDeletionRow?
    ensures Next(s, a).Some? <==> Enabled(s, a)
    ensures !a.CommitTxn? ==> Step(s, a).history == s.history
  {
    if a.ClaimIn? && a.id in s.active {
      assert Referenced(s.active[a.id].view, a.digest) <==>
        !forall r: Key :: r.ReferenceKey? && r.digest == a.digest ==> r !in s.active[a.id].view;
    }
  }

  /** A claim inside a transaction takes the payload, under the next token and for the collector. */
  lemma ClaimTakes(s: State, id: nat, digest: string, oldState: PayloadState, oldToken: nat, owner: string, lease: nat, k: Key)
    requires s.history != []
    requires var a := ClaimIn(id, digest, oldState, oldToken, owner, lease); Next(s, a).Some?
    ensures var t, t' := s.active[id], Step(s, ClaimIn(id, digest, oldState, oldToken, owner, lease)).active[id];
      && t'.base == t.base && t'.writes == t.writes + {PayloadKey(digest)}
      && PayloadKey(digest) in t.view && t.view[PayloadKey(digest)].PayloadRow?
      && Get(t'.view, k) ==
           if k == PayloadKey(digest)
           then Some(PayloadRow(t.view[k].length, Deleting, owner, oldToken + 1, s.now + lease)) else Get(t.view, k)
  {
    hide Commit, NoConflict;
  }
}
