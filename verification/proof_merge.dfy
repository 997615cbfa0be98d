/** The bounded union of requested proofs (mergeRequestedProofs and mergeProofNode). */
module ProofMerge {
  import opened BasmProof
  import opened Bytes
  import opened Merkle
  import opened ProofLevels
  import opened ProofUnion
  import opened Wrappers

  type ElementLevel = map<nat, PathElement>

  datatype MergeError = NotFound | LimitExceeded | ReadFailed | InvalidData

  /** What the storage view answers for one request: nothing, or bytes that parse to a path or do not. */
  datatype Fetch = FetchFailed | Fetched(length: nat, parsed: Option<MerklePath>)

  predicate Flagged(e: PathElement) {
    e.PathElement? && e.txid == Some(true)
  }

  // What merging computes, whatever the order of requests

  function LevelElements(path: MerklePath, level: nat): seq<PathElement> {
    if level < |path.levels| then path.levels[level] else []
  }

  /** All elements that paths supply at a level. */
  function ElementsAt(paths: seq<MerklePath>, level: nat): seq<PathElement> {
    if paths == [] then []
    else ElementsAt(paths[..|paths| - 1], level) + LevelElements(paths[|paths| - 1], level)
  }

  ghost predicate AllElements(elements: seq<PathElement>) {
    forall i :: 0 <= i < |elements| ==> elements[i].PathElement?
  }

  ghost predicate ConflictFree(elements: seq<PathElement>)
    requires AllElements(elements)
  {
    forall i, j :: 0 <= i < j < |elements| && elements[i].offset == elements[j].offset ==>
      elements[i].hash == elements[j].hash
  }

  /** An entry is some supplied element, flagged as a txid when any element at its place is. */
  ghost predicate EntryFrom(elements: seq<PathElement>, o: nat, entry: PathElement)
    requires AllElements(elements)
  {
    && entry.PathElement? && entry.offset == o
    && (exists i :: 0 <= i < |elements| && elements[i].offset == o &&
          entry.hash == elements[i].hash && entry.duplicate == elements[i].duplicate)
    && (Flagged(entry) <==> exists i :: 0 <= i < |elements| && elements[i].offset == o && Flagged(elements[i]))
  }

  ghost predicate LevelFrom(merged: ElementLevel, elements: seq<PathElement>) {
    && AllElements(elements)
    && (forall o :: o in merged ==> EntryFrom(elements, o, merged[o]))
    && (forall i :: 0 <= i < |elements| ==>
          && elements[i].offset in merged && merged[elements[i].offset].PathElement?
          && merged[elements[i].offset].hash == elements[i].hash)
  }

  ghost predicate MergedFrom(merged: seq<ElementLevel>, paths: seq<MerklePath>) {
    forall level :: 0 <= level < |merged| ==> LevelFrom(merged[level], ElementsAt(paths, level))
  }

  ghost predicate SomePathHas(paths: seq<MerklePath>, level: nat, e: PathElement) {
    exists i :: 0 <= i < |paths| && e in LevelElements(paths[i], level)
  }

  lemma SomePathOfFront(paths: seq<MerklePath>, level: nat, e: PathElement)
    requires paths != []
    ensures SomePathHas(paths, level, e) <==>
            SomePathHas(paths[..|paths| - 1], level, e) || e in LevelElements(paths[|paths| - 1], level)
  {
    var front := paths[..|paths| - 1];
    if SomePathHas(front, level, e) {
      var i :| 0 <= i < |front| && e in LevelElements(front[i], level);
      assert e in LevelElements(paths[i], level);
    }
    if SomePathHas(paths, level, e) {
      var i :| 0 <= i < |paths| && e in LevelElements(paths[i], level);
      assert i < |front| ==> front[i] == paths[i];
    }
  }

  lemma {:induction false} ElementsOfPaths(paths: seq<MerklePath>, level: nat, e: PathElement)
    ensures e in ElementsAt(paths, level) <==> SomePathHas(paths, level, e)
  {
    if paths != [] {
      ElementsOfPaths(paths[..|paths| - 1], level, e);
      SomePathOfFront(paths, level, e);
    }
  }

  lemma SameEntry(p: seq<PathElement>, q: seq<PathElement>, a: ElementLevel, b: ElementLevel, o: nat)
    requires LevelFrom(a, p) && LevelFrom(b, q) && (forall e :: e in p <==> e in q)
    requires o in a
    ensures o in b && a[o].PathElement? && b[o].PathElement?
    ensures a[o].hash == b[o].hash && (Flagged(a[o]) ==> Flagged(b[o]))
    ensures forall width :: PlacedElements(p, width) ==> (IsDuplicate(a[o]) <==> IsDuplicate(b[o]))
  {
    assert EntryFrom(p, o, a[o]);
    var i :| 0 <= i < |p| && p[i].offset == o && a[o].hash == p[i].hash && a[o].duplicate == p[i].duplicate;
    assert p[i] in q;
    assert EntryFrom(q, o, b[o]);
    var j :| 0 <= j < |q| && q[j].offset == o && b[o].hash == q[j].hash && b[o].duplicate == q[j].duplicate;
    assert q[j] in p;
    if Flagged(a[o]) {
      var k :| 0 <= k < |p| && p[k].offset == o && Flagged(p[k]);
      assert p[k] in q;
    }
  }

  /** The union does not depend on the order of the requests, as far as flags are set or not set. */
  lemma MergeIgnoresOrder(a: seq<ElementLevel>, b: seq<ElementLevel>, p: seq<MerklePath>, q: seq<MerklePath>, level: nat, o: nat)
    requires MergedFrom(a, p) && MergedFrom(b, q) && level < |a| == |b|
    requires forall path :: path in p <==> path in q
    ensures o in a[level] <==> o in b[level]
    ensures o in a[level] ==>
              && a[level][o].PathElement? && b[level][o].PathElement?
              && a[level][o].hash == b[level][o].hash && (Flagged(a[level][o]) <==> Flagged(b[level][o]))
    ensures o in a[level] ==> forall width :: PlacedElements(ElementsAt(p, level), width) ==>
              (IsDuplicate(a[level][o]) <==> IsDuplicate(b[level][o]))
  {
    var x, y := ElementsAt(p, level), ElementsAt(q, level);
    forall e
      ensures e in x <==> e in y
    {
      ElementsOfPaths(p, level, e);
      ElementsOfPaths(q, level, e);
      if e in x {
        var i :| 0 <= i < |p| && e in LevelElements(p[i], level);
        assert p[i] in q;
      }
      if e in y {
        var i :| 0 <= i < |q| && e in LevelElements(q[i], level);
        assert q[i] in p;
      }
    }
    if o in a[level] {
      SameEntry(x, y, a[level], b[level], o);
    }
    if o in b[level] {
      SameEntry(y, x, b[level], a[level], o);
    }
  }

  // The merging loops

  method SameProofNode(a: PathElement, b: PathElement) returns (same: bool)
    requires a.PathElement? && b.PathElement?
    ensures same <==> a.hash == b.hash
  {
    if a.hash.None? || b.hash.None? {
      return a.hash.None? && b.hash.None?;
    }
    return a.hash.value == b.hash.value;
  }

  /** Enters an element, or flags the one already there, unless their hashes differ. */
  method MergeProofNode(merged: array<ElementLevel>, level: nat, e: PathElement, ghost elements: seq<PathElement>)
    returns (ok: bool)
    requires level < merged.Length && e.PathElement? && LevelFrom(merged[level], elements)
    modifies merged
    ensures AllElements(elements + [e])
    ensures ok <==> ConflictFree(elements + [e])
    ensures ok ==> LevelFrom(merged[level], elements + [e])
    ensures forall k :: 0 <= k < merged.Length && k != level ==> merged[k] == old(merged[k])
  {
    ghost var before, all := merged[level], elements + [e];
    assert forall i :: 0 <= i < |elements| ==> all[i] == elements[i];
    if e.offset !in merged[level] {
      merged[level] := merged[level][e.offset := e];
      EntryIsNew(before, elements, e);
      return true;
    }
    var present := merged[level][e.offset];
    assert EntryFrom(elements, e.offset, present);
    ok := SameProofNode(present, e);
    if !ok {
      ghost var i :| 0 <= i < |elements| && elements[i].offset == e.offset && present.hash == elements[i].hash;
      assert all[i].offset == all[|elements|].offset && all[i].hash != all[|elements|].hash;
      return;
    }
    if e.txid.Some? && e.txid.value {
      merged[level] := merged[level][e.offset := present.(txid := e.txid)];
    }
    EntryIsPresent(before, elements, e);
  }

  lemma EntryIsNew(before: ElementLevel, elements: seq<PathElement>, e: PathElement)
    requires LevelFrom(before, elements) && e.PathElement? && e.offset !in before
    ensures LevelFrom(before[e.offset := e], elements + [e]) && ConflictFree(elements + [e])
  {
    var all := elements + [e];
    assert all[|elements|] == e && forall i :: 0 <= i < |elements| ==> all[i] == elements[i];
    var after := before[e.offset := e];
    forall o | o in after
      ensures EntryFrom(all, o, after[o])
    {
      if o != e.offset {
        EntryExtends(elements, e, o, before[o]);
      } else {
        assert all[|elements|].offset == o;
      }
    }
  }

  lemma EntryExtends(elements: seq<PathElement>, e: PathElement, o: nat, entry: PathElement)
    requires AllElements(elements) && e.PathElement? && EntryFrom(elements, o, entry)
    ensures AllElements(elements + [e])
    ensures e.offset != o || !Flagged(e) || Flagged(entry) ==> EntryFrom(elements + [e], o, entry)
    ensures e.offset == o && Flagged(e) ==> EntryFrom(elements + [e], o, entry.(txid := e.txid))
  {
    var all := elements + [e];
    assert all[|elements|] == e && forall i :: 0 <= i < |elements| ==> all[i] == elements[i];
    var i :| 0 <= i < |elements| && elements[i].offset == o && entry.hash == elements[i].hash &&
             entry.duplicate == elements[i].duplicate;
    assert all[i].offset == o;
    if Flagged(entry) {
      var k :| 0 <= k < |elements| && elements[k].offset == o && Flagged(elements[k]);
      assert all[k].offset == o;
    }
  }

  lemma EntryIsPresent(before: ElementLevel, elements: seq<PathElement>, e: PathElement)
    requires LevelFrom(before, elements) && e.PathElement? && e.offset in before
    requires before[e.offset].PathElement? && before[e.offset].hash == e.hash
    ensures LevelFrom(if Flagged(e) then before[e.offset := before[e.offset].(txid := e.txid)] else before, elements + [e])
    ensures ConflictFree(elements + [e])
  {
    var all := elements + [e];
    var after := if Flagged(e) then before[e.offset := before[e.offset].(txid := e.txid)] else before;
    assert all[|elements|] == e && forall i :: 0 <= i < |elements| ==> all[i] == elements[i];
    forall o | o in after
      ensures EntryFrom(all, o, after[o])
    {
      EntryExtends(elements, e, o, before[o]);
    }
    assert LevelFrom(after, all);
  }

  /** Whether one more path contradicts what was merged before. */
  ghost predicate ConflictFreeWith(paths: seq<MerklePath>, path: MerklePath, level: nat) {
    && AllElements(ElementsAt(paths, level) + LevelElements(path, level))
    && ConflictFree(ElementsAt(paths, level) + LevelElements(path, level))
  }

  ghost predicate AllPathElements(path: MerklePath) {
    forall level: nat :: AllElements(LevelElements(path, level))
  }

  method MergeProofLevel(merged: array<ElementLevel>, level: nat, nodes: seq<PathElement>, ghost elements: seq<PathElement>)
    returns (ok: bool)
    requires level < merged.Length && AllElements(nodes) && LevelFrom(merged[level], elements)
    modifies merged
    ensures AllElements(elements + nodes)
    ensures ok <==> ConflictFree(elements + nodes)
    ensures ok ==> LevelFrom(merged[level], elements + nodes)
    ensures forall k :: 0 <= k < merged.Length && k != level ==> merged[k] == old(merged[k])
  {
    ghost var all := elements + nodes;
    var i := 0;
    assert elements + nodes[..0] == elements;
    while i < |nodes|
      invariant 0 <= i <= |nodes|
      invariant LevelFrom(merged[level], elements + nodes[..i])
      invariant forall k :: 0 <= k < merged.Length && k != level ==> merged[k] == old(merged[k])
    {
      ok := MergeProofNode(merged, level, nodes[i], elements + nodes[..i]);
      assert elements + nodes[..i] + [nodes[i]] == elements + nodes[..i + 1];
      assert elements + nodes[..i + 1] == all[..|elements| + i + 1];
      if !ok {
        return;
      }
      i := i + 1;
    }
    assert nodes[..|nodes|] == nodes;
    LevelIsConflictFree(merged[level], all);
    ok := true;
  }

  lemma LevelIsConflictFree(merged: ElementLevel, elements: seq<PathElement>)
    requires LevelFrom(merged, elements)
    ensures ConflictFree(elements)
  {
  }

  method MergeProofLevels(merged: array<ElementLevel>, path: MerklePath, ghost paths: seq<MerklePath>)
    returns (ok: bool)
    requires |path.levels| <= merged.Length && AllPathElements(path) && MergedFrom(merged[..], paths)
    modifies merged
    ensures ok <==> forall level :: 0 <= level < merged.Length ==> ConflictFreeWith(paths, path, level)
    ensures ok ==> MergedFrom(merged[..], paths + [path])
  {
    ghost var before := merged[..];
    assert (paths + [path])[..|paths|] == paths;
    assert forall level: nat :: ElementsAt(paths + [path], level) == ElementsAt(paths, level) + LevelElements(path, level);
    var level := 0;
    while level < |path.levels|
      invariant 0 <= level <= |path.levels|
      invariant forall k :: 0 <= k < level ==>
                  LevelFrom(merged[k], ElementsAt(paths, k) + LevelElements(path, k)) && ConflictFreeWith(paths, path, k)
      invariant forall k :: level <= k < merged.Length ==> merged[k] == before[k]
    {
      assert AllElements(LevelElements(path, level)) && LevelFrom(before[level], ElementsAt(paths, level));
      ok := MergeProofLevel(merged, level, path.levels[level], ElementsAt(paths, level));
      if !ok {
        assert !ConflictFreeWith(paths, path, level);
        return;
      }
      level := level + 1;
    }
    forall k | |path.levels| <= k < merged.Length
      ensures ConflictFreeWith(paths, path, k) && LevelFrom(merged[k], ElementsAt(paths, k) + LevelElements(path, k))
    {
      assert LevelFrom(before[k], ElementsAt(paths, k));
      assert ElementsAt(paths, k) + LevelElements(path, k) == ElementsAt(paths, k);
      LevelIsConflictFree(before[k], ElementsAt(paths, k));
    }
    ok := true;
  }

  // Requests

  function BytesRead(responses: seq<Fetch>): nat {
    if responses == [] then 0
    else
      var last := responses[|responses| - 1];
      BytesRead(responses[..|responses| - 1]) + if last.Fetched? then last.length else 0
  }

  /** Why a request is refused by itself, if it is: the first check that fails. */
  ghost function Refusal(d: Digest, txid: Hash, positions: map<Hash, nat>, header: CanonicalHeader,
                         response: Fetch, remaining: int): Option<MergeError> {
    if txid !in positions then Some(NotFound)
    else if remaining <= 0 then Some(MergeError.LimitExceeded)
    else if response.FetchFailed? then Some(ReadFailed)
    else if response.length > remaining then Some(MergeError.LimitExceeded)
    else if response.parsed.None? || !Accepts(d, response.parsed.value, txid, positions[txid], header) then Some(InvalidData)
    else None
  }

  /** One request is answered, in the bytes that are left, by an acceptable path. */
  ghost predicate Served(d: Digest, txid: Hash, positions: map<Hash, nat>, header: CanonicalHeader,
                         response: Fetch, remaining: int) {
    && txid in positions && remaining > 0
    && response.Fetched? && response.length <= remaining && response.parsed.Some?
    && Accepts(d, response.parsed.value, txid, positions[txid], header)
  }

  ghost predicate ServedAt(d: Digest, txids: seq<Hash>, positions: map<Hash, nat>, header: CanonicalHeader,
                           responses: seq<Fetch>, maxProofBytes: nat, i: nat)
    requires i < |txids| == |responses|
  {
    Served(d, txids[i], positions, header, responses[i], maxProofBytes - BytesRead(responses[..i]))
  }

  ghost predicate AllServed(d: Digest, txids: seq<Hash>, positions: map<Hash, nat>, header: CanonicalHeader,
                            responses: seq<Fetch>, maxProofBytes: nat)
    requires |txids| == |responses|
  {
    forall i :: 0 <= i < |txids| ==> ServedAt(d, txids, positions, header, responses, maxProofBytes, i)
  }

  function PathsOf(responses: seq<Fetch>): (r: seq<MerklePath>)
    requires forall i :: 0 <= i < |responses| ==> responses[i].Fetched? && responses[i].parsed.Some?
    ensures |r| == |responses|
    ensures forall i :: 0 <= i < |r| ==> r[i] == responses[i].parsed.value
  {
    if responses == [] then [] else PathsOf(responses[..|responses| - 1]) + [responses[|responses| - 1].parsed.value]
  }

  /** No two of the paths supply different hashes for one place of the tree. */
  ghost predicate NoConflict(paths: seq<MerklePath>, depth: nat) {
    forall level :: 0 <= level < depth ==>
      AllElements(ElementsAt(paths, level)) && ConflictFree(ElementsAt(paths, level))
  }

  lemma AcceptedElements(d: Digest, path: MerklePath, txid: Hash, position: nat, header: CanonicalHeader)
    requires Accepts(d, path, txid, position, header)
    ensures AllPathElements(path) && |path.levels| <= MerkleProofDepth(header.transactionCount)
  {
    forall level: nat
      ensures AllElements(LevelElements(path, level))
    {
      if level < |path.levels| {
        assert PlacedElements(path.levels[level], Width(header.transactionCount, level));
      }
    }
  }

  /** Reads, validates and merges one proof. */
  method MergeOneProof(d: Digest, txid: Hash, positions: map<Hash, nat>, header: CanonicalHeader, response: Fetch,
                       maxProofBytes: nat, totalBytes: nat, merged: array<ElementLevel>, ghost paths: seq<MerklePath>)
    returns (r: Result<nat, MergeError>)
    requires merged.Length == MerkleProofDepth(header.transactionCount) && totalBytes <= maxProofBytes
    requires MergedFrom(merged[..], paths)
    modifies merged
    ensures r.Success? <==>
              && Served(d, txid, positions, header, response, maxProofBytes - totalBytes)
              && (forall level :: 0 <= level < merged.Length ==> ConflictFreeWith(paths, response.parsed.value, level))
    ensures r.Success? ==> r.value == response.length && MergedFrom(merged[..], paths + [response.parsed.value])
    ensures r.Failure? ==>
              r.error == match Refusal(d, txid, positions, header, response, maxProofBytes - totalBytes)
                         case Some(error) => error
                         case None => InvalidData
  {
    if txid !in positions {
      return Failure(NotFound);
    }
    var position := positions[txid];
    var remaining := maxProofBytes - totalBytes;
    if remaining == 0 {
      return Failure(MergeError.LimitExceeded);
    }
    if response.FetchFailed? {
      return Failure(ReadFailed);
    }
    if response.length > remaining {
      return Failure(MergeError.LimitExceeded);
    }
    if response.parsed.None? {
      return Failure(InvalidData);
    }
    var path := response.parsed.value;
    var ok := ValidateBASMProof(d, path, txid, position, header);
    if !ok {
      return Failure(InvalidData);
    }
    AcceptedElements(d, path, txid, position, header);
    ok := MergeProofLevels(merged, path, paths);
    if !ok {
      return Failure(InvalidData);
    }
    return Success(response.length);
  }
  lemma {:induction false} ElementsArePrefix(paths: seq<MerklePath>, n: nat, level: nat)
    requires n <= |paths|
    ensures exists rest :: ElementsAt(paths, level) == ElementsAt(paths[..n], level) + rest
    decreases |paths|
  {
    if n == |paths| {
      assert paths[..n] == paths;
      assert ElementsAt(paths, level) == ElementsAt(paths, level) + [];
    } else {
      var front := paths[..|paths| - 1];
      ElementsArePrefix(front, n, level);
      assert front[..n] == paths[..n];
      var rest :| ElementsAt(front, level) == ElementsAt(paths[..n], level) + rest;
      assert ElementsAt(paths, level) ==
             ElementsAt(paths[..n], level) + (rest + LevelElements(paths[|paths| - 1], level));
    }
  }

  lemma PrefixHasNoConflict(paths: seq<MerklePath>, n: nat, depth: nat)
    requires n <= |paths| && NoConflict(paths, depth)
    ensures NoConflict(paths[..n], depth)
  {
    forall level | 0 <= level < depth
      ensures AllElements(ElementsAt(paths[..n], level)) && ConflictFree(ElementsAt(paths[..n], level))
    {
      ElementsArePrefix(paths, n, level);
      var front, all := ElementsAt(paths[..n], level), ElementsAt(paths, level);
      assert forall i :: 0 <= i < |front| ==> front[i] == all[i];
    }
  }

  lemma ConflictWithNext(paths: seq<MerklePath>, i: nat, depth: nat)
    requires i < |paths|
    requires exists level :: 0 <= level < depth && !ConflictFreeWith(paths[..i], paths[i], level)
    ensures !NoConflict(paths, depth)
  {
    var level :| 0 <= level < depth && !ConflictFreeWith(paths[..i], paths[i], level);
    assert paths[..i + 1][..i] == paths[..i];
    assert ElementsAt(paths[..i + 1], level) == ElementsAt(paths[..i], level) + LevelElements(paths[i], level);
    if NoConflict(paths, depth) {
      PrefixHasNoConflict(paths, i + 1, depth);
    }
  }

  ghost predicate AllParsed(responses: seq<Fetch>) {
    forall i :: 0 <= i < |responses| ==> responses[i].Fetched? && responses[i].parsed.Some?
  }

  lemma NextResponse(responses: seq<Fetch>, i: nat)
    requires i < |responses| && AllParsed(responses[..i]) && responses[i].Fetched? && responses[i].parsed.Some?
    ensures AllParsed(responses[..i + 1])
    ensures PathsOf(responses[..i + 1]) == PathsOf(responses[..i]) + [responses[i].parsed.value]
    ensures BytesRead(responses[..i + 1]) == BytesRead(responses[..i]) + responses[i].length
  {
    assert responses[..i + 1][..i] == responses[..i];
  }

  lemma ServedIsParsed(d: Digest, txids: seq<Hash>, positions: map<Hash, nat>, header: CanonicalHeader,
                       responses: seq<Fetch>, maxProofBytes: nat)
    requires |txids| == |responses| && AllServed(d, txids, positions, header, responses, maxProofBytes)
    ensures AllParsed(responses)
  {
    forall i | 0 <= i < |responses|
      ensures responses[i].Fetched? && responses[i].parsed.Some?
    {
      assert ServedAt(d, txids, positions, header, responses, maxProofBytes, i);
    }
  }

  lemma NextConflicts(d: Digest, txids: seq<Hash>, positions: map<Hash, nat>, header: CanonicalHeader,
                      responses: seq<Fetch>, maxProofBytes: nat, i: nat)
    requires i < |txids| == |responses| && AllServed(d, txids, positions, header, responses, maxProofBytes)
    requires AllParsed(responses[..i]) && responses[i].Fetched? && responses[i].parsed.Some?
    requires exists level :: 0 <= level < MerkleProofDepth(header.transactionCount) &&
               !ConflictFreeWith(PathsOf(responses[..i]), responses[i].parsed.value, level)
    ensures AllParsed(responses) && !NoConflict(PathsOf(responses), MerkleProofDepth(header.transactionCount))
  {
    ServedIsParsed(d, txids, positions, header, responses, maxProofBytes);
    assert PathsOf(responses)[..i] == PathsOf(responses[..i]);
    ConflictWithNext(PathsOf(responses), i, MerkleProofDepth(header.transactionCount));
  }

  /** The first request that fails, and its error: its own refusal, or a conflict with the paths before. */
  ghost predicate FailsAt(d: Digest, txids: seq<Hash>, positions: map<Hash, nat>, header: CanonicalHeader,
                          responses: seq<Fetch>, maxProofBytes: nat, i: nat, error: MergeError)
    requires |txids| == |responses|
  {
    && i < |txids|
    && (forall k :: 0 <= k < i ==> ServedAt(d, txids, positions, header, responses, maxProofBytes, k))
    && var refusal := Refusal(d, txids[i], positions, header, responses[i], maxProofBytes - BytesRead(responses[..i]));
       if refusal.Some? then error == refusal.value
       else
         && error == InvalidData && AllParsed(responses[..i + 1])
         && !NoConflict(PathsOf(responses[..i + 1]), MerkleProofDepth(header.transactionCount))
  }

  /** The outcome: served requests merge exactly when no two of their paths disagree about a place. */
  method MergeRequestedProofs(d: Digest, txids: seq<Hash>, positions: map<Hash, nat>, header: CanonicalHeader,
                              responses: seq<Fetch>, maxProofBytes: nat)
    returns (r: Result<seq<ElementLevel>, MergeError>)
    requires |responses| == |txids|
    ensures r.Success? ==> && AllServed(d, txids, positions, header, responses, maxProofBytes)
                           && AllParsed(responses)
                           && |r.value| == MerkleProofDepth(header.transactionCount)
                           && MergedFrom(r.value, PathsOf(responses))
                           && NoConflict(PathsOf(responses), |r.value|)
                           && BytesRead(responses) <= maxProofBytes
    ensures r.Failure? ==> || !AllServed(d, txids, positions, header, responses, maxProofBytes)
                           || (AllParsed(responses) &&
                               !NoConflict(PathsOf(responses), MerkleProofDepth(header.transactionCount)))
    ensures r.Failure? ==> exists i :: FailsAt(d, txids, positions, header, responses, maxProofBytes, i, r.error)
  {
    hide MergedFrom, NoConflict;
    var merged := new ElementLevel[MerkleProofDepth(header.transactionCount)](i => map[]);
    NothingMerged(merged[..]);
    var totalBytes := 0;
    var i := 0;
    while i < |txids|
      invariant 0 <= i <= |txids|
      invariant totalBytes == BytesRead(responses[..i]) <= maxProofBytes
      invariant forall k :: 0 <= k < i ==> ServedAt(d, txids, positions, header, responses, maxProofBytes, k)
      invariant AllParsed(responses[..i])
      invariant MergedFrom(merged[..], PathsOf(responses[..i]))
    {
      var added := MergeOneProof(d, txids[i], positions, header, responses[i], maxProofBytes, totalBytes, merged,
                                 PathsOf(responses[..i]));
      if added.Failure? {
        if AllServed(d, txids, positions, header, responses, maxProofBytes) {
          assert ServedAt(d, txids, positions, header, responses, maxProofBytes, i);
          NextConflicts(d, txids, positions, header, responses, maxProofBytes, i);
        }
        if Served(d, txids[i], positions, header, responses[i], maxProofBytes - totalBytes) {
          NextResponse(responses, i);
          assert PathsOf(responses[..i + 1])[..i] == PathsOf(responses[..i]);
          ConflictWithNext(PathsOf(responses[..i + 1]), i, merged.Length);
        }
        assert FailsAt(d, txids, positions, header, responses, maxProofBytes, i, added.error);
        return Failure(added.error);
      }
      assert ServedAt(d, txids, positions, header, responses, maxProofBytes, i);
      NextResponse(responses, i);
      totalBytes := totalBytes + added.value;
      i := i + 1;
    }
    assert responses[..|txids|] == responses;
    MergedHasNoConflict(merged[..], PathsOf(responses));
    return Success(merged[..]);
  }

  lemma NothingMerged(merged: seq<ElementLevel>)
    requires forall i :: 0 <= i < |merged| ==> merged[i] == map[]
    ensures MergedFrom(merged, PathsOf([]))
  {
  }

  lemma MergedHasNoConflict(merged: seq<ElementLevel>, paths: seq<MerklePath>)
    requires MergedFrom(merged, paths)
    ensures NoConflict(paths, |merged|)
  {
    forall level | 0 <= level < |merged|
      ensures AllElements(ElementsAt(paths, level)) && ConflictFree(ElementsAt(paths, level))
    {
      LevelIsConflictFree(merged[level], ElementsAt(paths, level));
    }
  }
}
