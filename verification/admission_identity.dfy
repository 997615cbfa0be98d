/**
 * The identities of admissions and of their operations
 * (pkg/core/engine/admission_storage.go, pkg/core/engine/admission_submit.go).
 */
module AdmissionIdentity {
  import opened Framing
  import opened StorageUint
  import opened Text
  import opened Wrappers

  datatype Topic = Topic(topic: string, policyID: string)

  datatype Scope = Scope(network: string, genesisHash: string, nodeID: string)

  datatype Identity = Identity(scope: Scope, txid: string, mode: string, contextDigest: string, topics: seq<Topic>)

  datatype IdentityError = InvalidHash | InvalidMode | InvalidTopics | InvalidIdentity

  type Utf8Text = string -> bool

  const StorageProtocol := "overlay-admission-v1"
  const OperationIDDomain := "overlay-admission-operation-id-v1"
  const ModeLive := "live"
  const ModeHistorical := "historical"

  predicate IsLowerHexHash(s: string) {
    |s| == 64 && forall i :: 0 <= i < |s| ==> '0' <= s[i] <= '9' || 'a' <= s[i] <= 'f'
  }

  function TopicName(t: Topic): string {
    t.topic
  }

  predicate NamesDistinct(topics: seq<Topic>) {
    forall i, j :: 0 <= i < j < |topics| ==> topics[i].topic != topics[j].topic
  }

  function Sorted(topics: seq<Topic>): seq<Topic> {
    SortBy(TopicName, topics)
  }

  // Sorting and distinct names

  predicate NeighboursDiffer(topics: seq<Topic>) {
    forall i :: 0 < i < |topics| ==> topics[i - 1].topic != topics[i].topic
  }

  lemma SortedNames(topics: seq<Topic>)
    ensures multiset(Sorted(topics)) == multiset(topics)
    ensures NeighboursDiffer(Sorted(topics)) <==> Rising(Keys(TopicName, Sorted(topics)))
  {
    hide Less;
    var sorted := Sorted(topics);
    var keys := Keys(TopicName, sorted);
    SortBySorts(TopicName, topics);
    forall i | 0 < i < |keys|
      ensures Less(keys[i - 1], keys[i]) <==> sorted[i - 1].topic != sorted[i].topic
    {
      OrderedNeighbours(TopicName, sorted, i);
      LessIsTotal(keys[i], keys[i]);
    }
  }

  lemma RisingNamesAreDistinct(topics: seq<Topic>)
    requires Rising(Keys(TopicName, topics))
    ensures NamesDistinct(topics)
  {
    hide Less;
    var keys := Keys(TopicName, topics);
    forall i, j | 0 <= i < j < |topics|
      ensures topics[i].topic != topics[j].topic
    {
      RisingEverywhere(keys, i, j);
      LessIsTotal(keys[i], keys[i]);
    }
  }

  lemma {:induction false} DistinctIsAboutCounts(topics: seq<Topic>)
    ensures NamesDistinct(topics) <==> NoNameTwice(multiset(topics))
  {
    if NamesDistinct(topics) {
      forall t, u | t in multiset(topics) && u in multiset(topics) && t.topic == u.topic
        ensures t == u && multiset(topics)[t] == 1
      {
        var i :| 0 <= i < |topics| && topics[i] == t;
        var j :| 0 <= j < |topics| && topics[j] == u;
        CountOne(topics, i);
      }
    } else {
      var i, j :| 0 <= i < j < |topics| && topics[i].topic == topics[j].topic;
      if topics[i] == topics[j] {
        assert topics == topics[..j] + [topics[j]] + topics[j + 1..];
        assert topics[..j][i] == topics[i];
        assert topics[i] in multiset(topics[..j]);
        assert multiset(topics)[topics[i]] >= 2;
      }
    }
  }

  /** Topic names of a bag of topics do not repeat. */
  ghost predicate NoNameTwice(topics: multiset<Topic>) {
    forall t, u :: t in topics && u in topics && t.topic == u.topic ==> t == u && topics[t] == 1
  }

  /** Comparing neighbours after sorting finds every repeated topic. */
  lemma NeighboursShowDistinctness(topics: seq<Topic>)
    ensures NamesDistinct(topics) <==> NeighboursDiffer(Sorted(topics))
  {
    SortedNames(topics);
    DistinctIsAboutCounts(topics);
    DistinctIsAboutCounts(Sorted(topics));
    if NeighboursDiffer(Sorted(topics)) {
      RisingNamesAreDistinct(Sorted(topics));
    }
  }

  /** Lists of distinct topics with the same pairs have one sorted form. */
  lemma SortedFormIsUnique(a: seq<Topic>, b: seq<Topic>)
    requires NamesDistinct(a) && NamesDistinct(b)
    requires forall t :: t in a <==> t in b
    ensures Sorted(a) == Sorted(b)
  {
    hide Sorted, Less, Rising, NamesDistinct, NeighboursDiffer;
    NeighboursShowDistinctness(a);
    NeighboursShowDistinctness(b);
    SortedNames(a);
    SortedNames(b);
    var x, y := Sorted(a), Sorted(b);
    forall t
      ensures t in x <==> t in y
    {
      assert t in x <==> t in multiset(x);
      assert t in y <==> t in multiset(y);
      assert t in a <==> t in multiset(a);
      assert t in b <==> t in multiset(b);
    }
    var keys, keys' := Keys(TopicName, x), Keys(TopicName, y);
    SameNames(x, y);
    SameNames(y, x);
    RisingIsUnique(keys, keys');
    RisingNamesAreDistinct(x);
    forall i | 0 <= i < |x|
      ensures x[i] == y[i]
    {
      SamePlace(x, y, i);
    }
  }

  lemma SameNames(x: seq<Topic>, y: seq<Topic>)
    requires forall t :: t in x ==> t in y
    ensures forall k :: k in Keys(TopicName, x) ==> k in Keys(TopicName, y)
  {
    forall k | k in Keys(TopicName, x)
      ensures k in Keys(TopicName, y)
    {
      var i :| 0 <= i < |x| && Keys(TopicName, x)[i] == k;
      assert x[i] in y;
      var j :| 0 <= j < |y| && y[j] == x[i];
      assert Keys(TopicName, y)[j] == k;
    }
  }

  lemma SamePlace(x: seq<Topic>, y: seq<Topic>, i: nat)
    requires NamesDistinct(x) && i < |x| && Keys(TopicName, x) == Keys(TopicName, y)
    requires forall t :: t in y ==> t in x
    ensures |x| == |y| && x[i] == y[i]
  {
    assert |Keys(TopicName, y)| == |y|;
    assert y[i] in x;
    var j :| 0 <= j < |x| && x[j] == y[i];
    assert Keys(TopicName, x)[i] == Keys(TopicName, y)[i];
  }

  // The semantic digest

  function TopicFields(topics: seq<Topic>): (r: seq<string>)
    ensures |r| == 2 * |topics|
  {
    if topics == [] then [] else [topics[0].topic, topics[0].policyID] + TopicFields(topics[1..])
  }

  function IdentityFields(id: Identity): seq<string> {
    [StorageProtocol, id.scope.network, id.scope.genesisHash, id.scope.nodeID, id.txid, id.mode, id.contextDigest,
     Decimal(|id.topics|)] + TopicFields(Sorted(id.topics))
  }

  predicate FieldAccepted(utf8: Utf8Text, field: string) {
    field != "" && utf8(field)
  }

  predicate FieldsAccepted(utf8: Utf8Text, fields: seq<string>) {
    forall i :: 0 <= i < |fields| ==> FieldAccepted(utf8, fields[i])
  }

  /** The bytes that the semantic digest hashes, or the first check that fails. */
  function SemanticStream(utf8: Utf8Text, id: Identity): Result<string, IdentityError> {
    if !(IsLowerHexHash(id.txid) && IsLowerHexHash(id.scope.genesisHash) && IsLowerHexHash(id.contextDigest))
    then Failure(InvalidHash)
    else if id.mode != ModeLive && id.mode != ModeHistorical then Failure(InvalidMode)
    else if id.topics == [] || !NamesDistinct(id.topics) then Failure(InvalidTopics)
    else if !FieldsAccepted(utf8, IdentityFields(id)) then Failure(InvalidIdentity)
    else Success(Stream(IdentityFields(id)))
  }

  predicate IsLowerHexDigit(c: char) {
    c in "0123456789abcdef"
  }

  predicate Is64HexDigits(s: string) {
    |s| == 64 && forall i :: 0 <= i < 64 ==> IsLowerHexDigit(s[i])
  }

  predicate HasText(utf8: Utf8Text, s: string) {
    |s| >= 1 && utf8(s)
  }

  /** What an identity must be, field by field. */
  predicate IdentityWellFormed(utf8: Utf8Text, id: Identity) {
    && Is64HexDigits(id.txid) && Is64HexDigits(id.scope.genesisHash) && Is64HexDigits(id.contextDigest)
    && id.mode in {"live", "historical"}
    && |id.topics| >= 1
    && (forall i, j :: 0 <= i < j < |id.topics| ==> id.topics[i].topic != id.topics[j].topic)
    && HasText(utf8, "overlay-admission-v1") && HasText(utf8, id.scope.network) && HasText(utf8, id.scope.nodeID)
    && HasText(utf8, id.scope.genesisHash) && HasText(utf8, id.txid) && HasText(utf8, id.mode) && HasText(utf8, id.contextDigest)
    && HasText(utf8, Decimal(|id.topics|))
    && (forall t :: t in id.topics ==> HasText(utf8, t.topic) && HasText(utf8, t.policyID))
  }

  lemma HexDigits(s: string)
    ensures IsLowerHexHash(s) <==> Is64HexDigits(s)
  {
    assert forall c: char :: ('0' <= c <= '9' || 'a' <= c <= 'f') <==> IsLowerHexDigit(c);
  }

  lemma {:induction false} TopicFieldsHaveText(utf8: Utf8Text, topics: seq<Topic>)
    ensures FieldsAccepted(utf8, TopicFields(topics)) <==>
            forall t :: t in topics ==> HasText(utf8, t.topic) && HasText(utf8, t.policyID)
  {
    if topics != [] {
      TopicFieldsHaveText(utf8, topics[1..]);
      var fields := TopicFields(topics);
      assert fields[0] == topics[0].topic && fields[1] == topics[0].policyID;
      assert forall i :: 0 <= i < |fields| - 2 ==> fields[i + 2] == TopicFields(topics[1..])[i];
      assert forall t :: t in topics <==> t == topics[0] || t in topics[1..];
      if FieldsAccepted(utf8, fields) {
        forall i | 0 <= i < |fields| - 2
          ensures FieldAccepted(utf8, TopicFields(topics[1..])[i])
        {
          assert FieldAccepted(utf8, fields[i + 2]);
        }
      }
      if FieldsAccepted(utf8, TopicFields(topics[1..])) && FieldAccepted(utf8, fields[0]) && FieldAccepted(utf8, fields[1]) {
        forall i | 0 <= i < |fields|
          ensures FieldAccepted(utf8, fields[i])
        {
          if i >= 2 {
            assert fields[i] == TopicFields(topics[1..])[i - 2];
          }
        }
      }
    }
  }

  lemma FieldsJoin(utf8: Utf8Text, head: seq<string>, tail: seq<string>)
    ensures FieldsAccepted(utf8, head + tail) <==> FieldsAccepted(utf8, head) && FieldsAccepted(utf8, tail)
  {
    var all := head + tail;
    if FieldsAccepted(utf8, all) {
      forall i | 0 <= i < |tail|
        ensures FieldAccepted(utf8, tail[i])
      {
        assert tail[i] == all[|head| + i];
      }
      assert forall i :: 0 <= i < |head| ==> head[i] == all[i];
    }
  }

  /** A digest is given exactly for well-formed identities. */
  lemma DigestIsOfWellFormed(utf8: Utf8Text, id: Identity)
    ensures SemanticStream(utf8, id).Success? <==> IdentityWellFormed(utf8, id)
  {
    HexDigits(id.txid);
    HexDigits(id.scope.genesisHash);
    HexDigits(id.contextDigest);
    SortedHasSameTopics(id.topics);
    hide IsLowerHexHash, Is64HexDigits, Sorted, Stream, Decimal, HasText, FieldsAccepted, TopicFields;
    var head := [StorageProtocol, id.scope.network, id.scope.genesisHash, id.scope.nodeID, id.txid, id.mode, id.contextDigest,
                 Decimal(|id.topics|)];
    FieldsJoin(utf8, head, TopicFields(Sorted(id.topics)));
    TopicFieldsHaveText(utf8, Sorted(id.topics));
    HeadHasText(utf8, head);
  }

  lemma SortedHasSameTopics(topics: seq<Topic>)
    ensures forall t :: t in Sorted(topics) <==> t in topics
  {
    hide Sorted;
    SortedNames(topics);
    forall t
      ensures t in Sorted(topics) <==> t in topics
    {
      assert t in multiset(Sorted(topics)) <==> t in multiset(topics);
    }
  }

  lemma HeadHasText(utf8: Utf8Text, head: seq<string>)
    requires |head| == 8
    ensures FieldsAccepted(utf8, head) <==>
      && HasText(utf8, head[0]) && HasText(utf8, head[1]) && HasText(utf8, head[2]) && HasText(utf8, head[3])
      && HasText(utf8, head[4]) && HasText(utf8, head[5]) && HasText(utf8, head[6]) && HasText(utf8, head[7])
  {
    forall s: string
      ensures FieldAccepted(utf8, s) <==> HasText(utf8, s)
    {
    }
  }

  lemma {:induction false} TopicFieldsAppend(topics: seq<Topic>, t: Topic)
    ensures TopicFields(topics + [t]) == TopicFields(topics) + [t.topic, t.policyID]
  {
    if topics == [] {
      assert [t][1..] == [] && [] + [t] == [t];
      assert TopicFields([t]) == [t.topic, t.policyID] + [];
    } else {
      TopicFieldsAppend(topics[1..], t);
      assert (topics + [t])[1..] == topics[1..] + [t];
    }
  }

  method AdmissionSemanticDigest(utf8: Utf8Text, id: Identity) returns (written: Result<string, IdentityError>)
    ensures written == SemanticStream(utf8, id)
  {
    hide IsLowerHexHash, Stream, Sorted, NamesDistinct, Decimal;
    if !IsLowerHexHash(id.txid) || !IsLowerHexHash(id.scope.genesisHash) || !IsLowerHexHash(id.contextDigest) {
      return Failure(InvalidHash);
    }
    if id.mode != ModeLive && id.mode != ModeHistorical {
      return Failure(InvalidMode);
    }
    var topics := Sorted(id.topics);
    SortedLength(id.topics);
    NeighboursShowDistinctness(id.topics);
    if |topics| == 0 {
      return Failure(InvalidTopics);
    }
    var i := 1;
    while i < |topics|
      invariant 1 <= i <= |topics|
      invariant forall k :: 0 < k < i ==> topics[k - 1].topic != topics[k].topic
    {
      if topics[i - 1].topic == topics[i].topic {
        return Failure(InvalidTopics);
      }
      i := i + 1;
    }
    var fields := BuildFields(id, topics);
    written := WriteFields(utf8, fields);
  }

  lemma SortedLength(topics: seq<Topic>)
    ensures |Sorted(topics)| == |topics|
  {
    SortedNames(topics);
    assert |multiset(Sorted(topics))| == |multiset(topics)|;
  }

  method BuildFields(id: Identity, topics: seq<Topic>) returns (fields: seq<string>)
    requires topics == Sorted(id.topics)
    ensures fields == IdentityFields(id)
  {
    hide Sorted, Decimal;
    SortedLength(id.topics);
    fields := [StorageProtocol, id.scope.network, id.scope.genesisHash, id.scope.nodeID, id.txid, id.mode,
               id.contextDigest, Decimal(|topics|)];
    ghost var head := fields;
    var i := 0;
    while i < |topics|
      invariant 0 <= i <= |topics|
      invariant fields == head + TopicFields(topics[..i])
    {
      TopicFieldsAppend(topics[..i], topics[i]);
      assert topics[..i + 1] == topics[..i] + [topics[i]];
      fields := fields + [topics[i].topic, topics[i].policyID];
      i := i + 1;
    }
    assert topics[..i] == topics;
  }

  method WriteFields(utf8: Utf8Text, fields: seq<string>) returns (written: Result<string, IdentityError>)
    ensures written == if FieldsAccepted(utf8, fields) then Success(Stream(fields)) else Failure(InvalidIdentity)
  {
    hide Frame;
    var hash := [];
    var i := 0;
    while i < |fields|
      invariant 0 <= i <= |fields|
      invariant forall k :: 0 <= k < i ==> FieldAccepted(utf8, fields[k])
      invariant hash == Stream(fields[..i])
    {
      if !FieldAccepted(utf8, fields[i]) {
        return Failure(InvalidIdentity);
      }
      StreamAppend(fields[..i], fields[i]);
      assert fields[..i + 1] == fields[..i] + [fields[i]];
      hash := hash + Frame(fields[i]);
      i := i + 1;
    }
    assert fields[..i] == fields;
    return Success(hash);
  }

  /** Scope, transaction, mode and context agree, and so do the policies of every topic. */
  ghost predicate SameIdentity(a: Identity, b: Identity) {
    && a.scope == b.scope && a.txid == b.txid && a.mode == b.mode && a.contextDigest == b.contextDigest
    && forall t :: t in a.topics <==> t in b.topics
  }

  lemma {:induction false} TopicFieldsAreInjective(a: seq<Topic>, b: seq<Topic>)
    requires TopicFields(a) == TopicFields(b)
    ensures a == b
  {
    if a != [] && b != [] {
      var x, y := TopicFields(a), TopicFields(b);
      assert x[0] == a[0].topic && x[1] == a[0].policyID && x[2..] == TopicFields(a[1..]);
      assert y[0] == b[0].topic && y[1] == b[0].policyID && y[2..] == TopicFields(b[1..]);
      TopicFieldsAreInjective(a[1..], b[1..]);
      assert a == [a[0]] + a[1..] && b == [b[0]] + b[1..];
    }
  }

  lemma FieldsByPosition(id: Identity)
    ensures var x := IdentityFields(id);
      && |x| >= 8 && x[1] == id.scope.network && x[2] == id.scope.genesisHash && x[3] == id.scope.nodeID && x[4] == id.txid
      && x[5] == id.mode && x[6] == id.contextDigest && x[8..] == TopicFields(Sorted(id.topics))
  {
    hide Sorted, Decimal;
  }

  lemma FieldsDetermineIdentity(a: Identity, b: Identity)
    requires IdentityFields(a) == IdentityFields(b)
    ensures SameIdentity(a, b)
  {
    hide Sorted, Decimal, IdentityFields;
    FieldsByPosition(a);
    FieldsByPosition(b);
    TopicFieldsAreInjective(Sorted(a.topics), Sorted(b.topics));
    SortedNames(a.topics);
    SortedNames(b.topics);
    forall t
      ensures t in a.topics <==> t in b.topics
    {
      assert t in a.topics <==> t in multiset(a.topics);
      assert t in b.topics <==> t in multiset(b.topics);
    }
  }

  /** Accepted identities are hashed from the same bytes exactly when they are the same admission. */
  lemma SemanticStreamIdentifies(utf8: Utf8Text, a: Identity, b: Identity)
    requires SemanticStream(utf8, a).Success? && SemanticStream(utf8, b).Success?
    ensures SemanticStream(utf8, a) == SemanticStream(utf8, b) <==> SameIdentity(a, b)
  {
    hide Stream, Sorted, NamesDistinct, IsLowerHexHash, FieldsAccepted;
    if SemanticStream(utf8, a) == SemanticStream(utf8, b) {
      StreamIsInjective(IdentityFields(a), IdentityFields(b));
      FieldsDetermineIdentity(a, b);
    }
    if SameIdentity(a, b) {
      SortedFormIsUnique(a.topics, b.topics);
      SortedLength(a.topics);
      SortedLength(b.topics);
    }
  }

  // Operation ids

  /** First occurrences only. */
  function Dedup(topics: seq<string>): seq<string> {
    if topics == [] then []
    else
      var last := topics[|topics| - 1];
      var front := Dedup(topics[..|topics| - 1]);
      if last in front then front else front + [last]
  }

  function Self(s: string): string {
    s
  }

  function OperationFields(mode: string, txid: string, topics: seq<string>): seq<string> {
    [OperationIDDomain, mode, txid] + SortBy(Self, Dedup(topics))
  }

  predicate AllDistinct(keys: seq<string>) {
    forall i, j :: 0 <= i < j < |keys| ==> keys[i] != keys[j]
  }

  lemma {:induction false} DedupKeepsEachOnce(topics: seq<string>)
    ensures AllDistinct(Dedup(topics))
    ensures forall t :: t in Dedup(topics) <==> t in topics
  {
    if topics != [] {
      var others := topics[..|topics| - 1];
      DedupKeepsEachOnce(others);
      assert topics == others + [topics[|topics| - 1]];
    }
  }

  /** The bytes of an operation id. */
  method AdmissionOperationID(mode: string, txid: string, topics: seq<string>) returns (written: string)
    ensures written == Stream(OperationFields(mode, txid, topics))
  {
    hide SortBy, Stream;
    var seen: set<string> := {};
    var deduped: seq<string> := [];
    var i := 0;
    while i < |topics|
      invariant 0 <= i <= |topics|
      invariant seen == set t | t in deduped
      invariant deduped == Dedup(topics[..i])
    {
      assert topics[..i + 1][..i] == topics[..i];
      if topics[i] !in seen {
        seen := seen + {topics[i]};
        deduped := deduped + [topics[i]];
      }
      i := i + 1;
    }
    assert topics[..i] == topics;
    var fields := [OperationIDDomain, mode, txid] + SortBy(Self, deduped);
    written := TupleStream(fields);
  }

  lemma SortedDistinctKeysRise(keys: seq<string>)
    requires AllDistinct(keys)
    ensures Rising(SortBy(Self, keys))
    ensures forall k :: k in SortBy(Self, keys) <==> k in keys
  {
    hide Less, SortBy;
    SortBySorts(Self, keys);
    var sorted := SortBy(Self, keys);
    forall k
      ensures k in sorted <==> k in keys
    {
      assert k in sorted <==> k in multiset(sorted);
      assert k in keys <==> k in multiset(keys);
    }
    forall i | 0 < i < |sorted|
      ensures Less(sorted[i - 1], sorted[i])
    {
      OrderedNeighbours(Self, sorted, i);
      if sorted[i - 1] == sorted[i] {
        assert sorted == sorted[..i] + [sorted[i]] + sorted[i + 1..];
        assert sorted[..i][i - 1] == sorted[i];
        assert sorted[i] in multiset(sorted[..i]);
        assert multiset(keys)[sorted[i]] >= 2;
        CountsOnce(keys, sorted[i]);
      }
    }
  }

  lemma CountsOnce(keys: seq<string>, k: string)
    requires AllDistinct(keys)
    ensures multiset(keys)[k] <= 1
  {
    if k in keys {
      var i :| 0 <= i < |keys| && keys[i] == k;
      CountOne(keys, i);
    }
  }

  /** Two operation ids are hashed from the same bytes exactly when mode, transaction and set of topics agree. */
  lemma OperationStreamIdentifies(mode: string, txid: string, topics: seq<string>,
                                  mode': string, txid': string, topics': seq<string>)
    ensures Stream(OperationFields(mode, txid, topics)) == Stream(OperationFields(mode', txid', topics')) <==>
            mode == mode' && txid == txid' && (forall t :: t in topics <==> t in topics')
  {
    hide Stream, SortBy, Dedup, Rising;
    var a, b := OperationFields(mode, txid, topics), OperationFields(mode', txid', topics');
    DedupKeepsEachOnce(topics);
    DedupKeepsEachOnce(topics');
    SortedDistinctKeysRise(Dedup(topics));
    SortedDistinctKeysRise(Dedup(topics'));
    if Stream(a) == Stream(b) {
      StreamIsInjective(a, b);
      assert a[1] == mode && a[2] == txid && a[3..] == SortBy(Self, Dedup(topics));
      assert b[1] == mode' && b[2] == txid' && b[3..] == SortBy(Self, Dedup(topics'));
    }
    if mode == mode' && txid == txid' && (forall t :: t in topics <==> t in topics') {
      RisingIsUnique(SortBy(Self, Dedup(topics)), SortBy(Self, Dedup(topics')));
    }
  }

  /** An operation id and a semantic digest are never hashed from the same bytes. */
  lemma StreamsAreSeparate(id: Identity, mode: string, txid: string, topics: seq<string>)
    ensures Stream(IdentityFields(id)) != Stream(OperationFields(mode, txid, topics))
  {
    hide Stream, SortBy, Dedup, Sorted;
    var a, b := IdentityFields(id), OperationFields(mode, txid, topics);
    assert a[0] == StorageProtocol && b[0] == OperationIDDomain;
    assert |StorageProtocol| != |OperationIDDomain|;
    if Stream(a) == Stream(b) {
      StreamIsInjective(a, b);
    }
  }
}
