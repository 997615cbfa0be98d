/** Topic block anchors and admitted lists (pkg/core/basm/values.go). */
module Anchors {
  import opened Bytes
  import opened Merkle
  import opened Wrappers

  const MaxSafeJSONInteger: nat := 0x1F_FFFF_FFFF_FFFF

  type uint32 = x: nat | x < 0x1_0000_0000

  type uint64 = x: nat | x < 0x1_0000_0000_0000_0000

  /** UTF-8 validity is foreign code: everything holds for an arbitrary predicate on byte strings. */
  type Utf8 = seq<byte> -> bool

  datatype Limits = Limits(maxAdmitted: uint32, maxRange: uint32, maxJSONBytes: uint32, maxTopicBytes: uint32)

  predicate LimitsValid(l: Limits) {
    l.maxAdmitted > 0 && l.maxRange > 0 && l.maxJSONBytes > 0 && l.maxTopicBytes > 0
  }

  datatype TopicBlockAnchor = TopicBlockAnchor(
    topic: seq<byte>, blockHeight: uint32, blockHash: Hash, basmRoot: Hash, admittedCount: uint64)

  predicate TopicValid(utf8: Utf8, topic: seq<byte>, maxBytes: uint32) {
    0 < |topic| <= maxBytes && utf8(topic)
  }

  /** The first check that an anchor fails, if any. */
  function Validate(utf8: Utf8, a: TopicBlockAnchor, limits: Limits): Option<BasmError> {
    if !LimitsValid(limits) then Some(InvalidInput)
    else if !TopicValid(utf8, a.topic, limits.maxTopicBytes) then Some(InvalidInput)
    else if a.admittedCount > limits.maxAdmitted then Some(LimitExceeded)
    else if a.admittedCount == 0 && a.basmRoot != ZeroHash then Some(Inconsistent)
    else None
  }

  /** Positive limits, a bounded UTF-8 topic, a bounded count, and the zero root for an empty list. */
  predicate WellFormedAnchor(utf8: Utf8, a: TopicBlockAnchor, limits: Limits) {
    && limits.maxAdmitted >= 1 && limits.maxRange >= 1 && limits.maxJSONBytes >= 1 && limits.maxTopicBytes >= 1
    && 1 <= |a.topic| <= limits.maxTopicBytes && utf8(a.topic)
    && a.admittedCount <= limits.maxAdmitted
    && (a.basmRoot == ZeroHash || a.admittedCount >= 1)
  }

  /** An anchor is valid exactly when it is well formed; a large count and a root of nothing have errors of their own. */
  lemma ValidAnchorIsWellFormed(utf8: Utf8, a: TopicBlockAnchor, limits: Limits)
    ensures Validate(utf8, a, limits) == None <==> WellFormedAnchor(utf8, a, limits)
    ensures Validate(utf8, a, limits) == Some(BasmError.LimitExceeded) <==>
            a.admittedCount > limits.maxAdmitted && WellFormedAnchor(utf8, a.(admittedCount := 1), limits)
    ensures Validate(utf8, a, limits) == Some(Inconsistent) <==>
            a.admittedCount == 0 && a.basmRoot != ZeroHash && WellFormedAnchor(utf8, a.(basmRoot := ZeroHash), limits)
    ensures Validate(utf8, a, limits) in {None, Some(BasmError.LimitExceeded), Some(Inconsistent), Some(InvalidInput)}
  {
  }

  // Admitted lists

  datatype AdmittedTxRef = AdmittedTxRef(txid: Hash, blockIndex: uint64)

  function Txids(admitted: seq<AdmittedTxRef>): (r: seq<Hash>)
    ensures |r| == |admitted|
    ensures forall i :: 0 <= i < |r| ==> r[i] == admitted[i].txid
  {
    if admitted == [] then [] else [admitted[0].txid] + Txids(admitted[1..])
  }

  /** Indices in the block rise strictly and no transaction occurs twice. */
  ghost predicate AdmittedInBlock(admitted: seq<AdmittedTxRef>, blockTxCount: uint64) {
    && (forall i :: 0 <= i < |admitted| ==> admitted[i].blockIndex < blockTxCount)
    && (forall i, j :: 0 <= i < j < |admitted| ==> admitted[i].blockIndex < admitted[j].blockIndex)
    && (forall i, j :: 0 <= i < j < |admitted| ==> admitted[i].txid != admitted[j].txid)
  }

  ghost predicate AdmittedListValid(admitted: seq<AdmittedTxRef>, blockTxCount: uint64, limits: Limits) {
    && LimitsValid(limits)
    && 0 < blockTxCount <= MaxSafeJSONInteger
    && |admitted| <= limits.maxAdmitted
    && AdmittedInBlock(admitted, blockTxCount)
  }

  function TxidsBefore(admitted: seq<AdmittedTxRef>, i: nat): set<Hash>
    requires i <= |admitted|
  {
    if i == 0 then {} else TxidsBefore(admitted, i - 1) + {admitted[i - 1].txid}
  }

  /** What checkAdmittedEntry asks of one entry, given those before it. */
  predicate EntryValid(admitted: seq<AdmittedTxRef>, blockTxCount: uint64, i: nat)
    requires i < |admitted|
  {
    && admitted[i].blockIndex < blockTxCount
    && (i > 0 ==> admitted[i - 1].blockIndex < admitted[i].blockIndex)
    && admitted[i].txid !in TxidsBefore(admitted, i)
  }

  ghost predicate EntriesValid(admitted: seq<AdmittedTxRef>, blockTxCount: uint64) {
    forall i :: 0 <= i < |admitted| ==> EntryValid(admitted, blockTxCount, i)
  }

  lemma {:induction false} TxidBefore(admitted: seq<AdmittedTxRef>, i: nat, j: nat)
    requires i < j <= |admitted|
    ensures admitted[i].txid in TxidsBefore(admitted, j)
  {
    if i < j - 1 {
      TxidBefore(admitted, i, j - 1);
    }
  }

  lemma {:induction false} TxidsBeforeOccur(admitted: seq<AdmittedTxRef>, j: nat, h: Hash)
    requires j <= |admitted| && h in TxidsBefore(admitted, j)
    ensures exists i :: 0 <= i < j && admitted[i].txid == h
  {
    if h != admitted[j - 1].txid {
      TxidsBeforeOccur(admitted, j - 1, h);
    }
  }

  lemma {:induction false} EntriesRise(admitted: seq<AdmittedTxRef>, blockTxCount: uint64, i: nat, j: nat)
    requires i < j < |admitted| && EntriesValid(admitted, blockTxCount)
    ensures admitted[i].blockIndex < admitted[j].blockIndex && admitted[i].txid != admitted[j].txid
    decreases j
  {
    assert EntryValid(admitted, blockTxCount, j);
    TxidBefore(admitted, i, j);
    if i < j - 1 {
      EntriesRise(admitted, blockTxCount, i, j - 1);
    }
  }

  /** Comparing neighbouring indices and remembering txids is enough. */
  lemma EntriesAreInBlock(admitted: seq<AdmittedTxRef>, blockTxCount: uint64)
    ensures AdmittedInBlock(admitted, blockTxCount) <==> EntriesValid(admitted, blockTxCount)
  {
    if EntriesValid(admitted, blockTxCount) {
      forall i | 0 <= i < |admitted|
        ensures admitted[i].blockIndex < blockTxCount
      {
        assert EntryValid(admitted, blockTxCount, i);
      }
      forall i, j | 0 <= i < j < |admitted|
        ensures admitted[i].blockIndex < admitted[j].blockIndex && admitted[i].txid != admitted[j].txid
      {
        EntriesRise(admitted, blockTxCount, i, j);
      }
    }
    if AdmittedInBlock(admitted, blockTxCount) {
      forall i | 0 <= i < |admitted|
        ensures EntryValid(admitted, blockTxCount, i)
      {
        if admitted[i].txid in TxidsBefore(admitted, i) {
          TxidsBeforeOccur(admitted, i, admitted[i].txid);
        }
      }
    }
  }

  predicate CheckAdmittedEntry(i: nat, ref: AdmittedTxRef, previousIndex: uint64, blockTxCount: uint64, seen: set<Hash>) {
    ref.blockIndex < blockTxCount && (i == 0 || ref.blockIndex > previousIndex) && ref.txid !in seen
  }

  lemma CheckedEntry(admitted: seq<AdmittedTxRef>, blockTxCount: uint64, i: nat, previousIndex: uint64)
    requires i < |admitted| && (i > 0 ==> previousIndex == admitted[i - 1].blockIndex)
    ensures CheckAdmittedEntry(i, admitted[i], previousIndex, blockTxCount, TxidsBefore(admitted, i)) <==>
            EntryValid(admitted, blockTxCount, i)
  {
  }

  /** Compares each index with the one before it only, and each txid with all that were seen. */
  method AdmittedLeaves(admitted: seq<AdmittedTxRef>, blockTxCount: uint64) returns (r: Result<seq<Hash>, BasmError>)
    ensures r == if AdmittedInBlock(admitted, blockTxCount) then Success(Txids(admitted)) else Failure(Inconsistent)
  {
    EntriesAreInBlock(admitted, blockTxCount);
    hide AdmittedInBlock, EntryValid, CheckAdmittedEntry, Txids;
    var seen: set<Hash> := {};
    var leaves := new Hash[|admitted|](i => ZeroHash);
    var previousIndex: uint64 := 0;
    ghost var txids := Txids(admitted);
    var i := 0;
    while i < |admitted|
      invariant 0 <= i <= |admitted| == leaves.Length
      invariant forall k :: 0 <= k < i ==> EntryValid(admitted, blockTxCount, k)
      invariant i > 0 ==> previousIndex == admitted[i - 1].blockIndex
      invariant seen == TxidsBefore(admitted, i)
      invariant forall k :: 0 <= k < i ==> leaves[k] == txids[k]
    {
      var ref := admitted[i];
      CheckedEntry(admitted, blockTxCount, i, previousIndex);
      if !CheckAdmittedEntry(i, ref, previousIndex, blockTxCount, seen) {
        return Failure(Inconsistent);
      }
      seen := seen + {ref.txid};
      leaves[i] := ref.txid;
      previousIndex := ref.blockIndex;
      i := i + 1;
    }
    assert leaves[..] == txids;
    return Success(leaves[..]);
  }

  /** Why an admitted list that is not valid is refused: its bounds come first. */
  function AdmittedListRefusal(admitted: seq<AdmittedTxRef>, blockTxCount: uint64, limits: Limits): BasmError {
    if !LimitsValid(limits) || blockTxCount == 0 || blockTxCount > MaxSafeJSONInteger then InvalidInput
    else if |admitted| > limits.maxAdmitted then LimitExceeded
    else Inconsistent
  }

  method ValidateAdmittedList(d: Digest, admitted: seq<AdmittedTxRef>, blockTxCount: uint64, limits: Limits)
    returns (r: Result<Hash, BasmError>)
    ensures r.Success? <==> AdmittedListValid(admitted, blockTxCount, limits)
    ensures r.Success? ==> r.value == MerkleRoot(d, Txids(admitted))
    ensures r.Failure? ==> r.error == AdmittedListRefusal(admitted, blockTxCount, limits)
  {
    if !LimitsValid(limits) || blockTxCount == 0 || blockTxCount > MaxSafeJSONInteger {
      return Failure(InvalidInput);
    }
    if |admitted| > limits.maxAdmitted {
      return Failure(LimitExceeded);
    }
    var leaves := AdmittedLeaves(admitted, blockTxCount);
    if leaves.Failure? {
      return Failure(leaves.error);
    }
    var root := Root(d, leaves.value, limits.maxAdmitted);
    return Success(root.value);
  }

  /** The list is well formed and the anchor claims its count and root. */
  ghost predicate AnchorListAccepted(d: Digest, utf8: Utf8, anchor: TopicBlockAnchor, admitted: seq<AdmittedTxRef>,
                                     blockTxCount: uint64, limits: Limits) {
    && Validate(utf8, anchor, limits) == None
    && anchor.admittedCount == |admitted|
    && AdmittedListValid(admitted, blockTxCount, limits)
    && MerkleRoot(d, Txids(admitted)) == anchor.basmRoot
  }

  /** Why an anchor and a list that do not fit are refused: the anchor comes before the count and the count before the list. */
  ghost function AnchorListRefusal(utf8: Utf8, anchor: TopicBlockAnchor, admitted: seq<AdmittedTxRef>,
                                   blockTxCount: uint64, limits: Limits): BasmError {
    var invalid := Validate(utf8, anchor, limits);
    if invalid.Some? then invalid.value
    else if anchor.admittedCount != |admitted| || AdmittedListValid(admitted, blockTxCount, limits) then Inconsistent
    else AdmittedListRefusal(admitted, blockTxCount, limits)
  }

  method ValidateAnchorList(d: Digest, utf8: Utf8, anchor: TopicBlockAnchor, admitted: seq<AdmittedTxRef>,
                            blockTxCount: uint64, limits: Limits)
    returns (error: Option<BasmError>)
    ensures error == None <==> AnchorListAccepted(d, utf8, anchor, admitted, blockTxCount, limits)
    ensures error == None ==> WellFormedAnchor(utf8, anchor, limits)
    ensures error.Some? ==> error.value == AnchorListRefusal(utf8, anchor, admitted, blockTxCount, limits)
  {
    error := Validate(utf8, anchor, limits);
    if error.Some? {
      return;
    }
    if anchor.admittedCount != |admitted| {
      return Some(Inconsistent);
    }
    var root := ValidateAdmittedList(d, admitted, blockTxCount, limits);
    if root.Failure? {
      return Some(root.error);
    }
    if root.value != anchor.basmRoot {
      return Some(Inconsistent);
    }
    return None;
  }

  /** An anchor commits to its admitted transactions: two accepted lists have the same txids in the same order. */
  lemma AnchorCommitsToList(d: Digest, utf8: Utf8, anchor: TopicBlockAnchor, anchor': TopicBlockAnchor,
                            a: seq<AdmittedTxRef>, b: seq<AdmittedTxRef>, n: uint64, n': uint64, limits: Limits, limits': Limits)
    requires AnchorListAccepted(d, utf8, anchor, a, n, limits) && AnchorListAccepted(d, utf8, anchor', b, n', limits')
    requires anchor.basmRoot == anchor'.basmRoot && |a| == |b|
    ensures Txids(a) == Txids(b) || TreeCollision(d, Txids(a), Txids(b))
  {
    RootCommitsToLeaves(d, Txids(a), Txids(b));
  }

  /** The inclusive number of heights of a bounded range. */
  function ValidateRange(fromHeight: uint32, toHeight: uint32, maxHeights: uint32): (r: Result<uint32, BasmError>)
    ensures r.Success? <==> fromHeight <= toHeight && toHeight - fromHeight < maxHeights
    ensures r.Success? ==> fromHeight + r.value == toHeight + 1
    ensures r == Failure(BasmError.LimitExceeded) <==> fromHeight <= toHeight && toHeight - fromHeight >= maxHeights > 0
  {
    if maxHeights == 0 || fromHeight > toHeight then Failure(InvalidInput)
    else
      var count := toHeight - fromHeight + 1;
      if count > maxHeights then Failure(LimitExceeded) else Success(count)
  }
}
