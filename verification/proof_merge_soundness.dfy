/** Merging accepted proofs: no conflict, and a union accepted for every request, or a collision at hand. */
module ProofMergeSoundness {
  import opened BasmProof
  import opened Bytes
  import opened Merkle
  import opened ProofLevels
  import opened ProofMerge
  import opened ProofUnion
  import opened Wrappers

  /** Each path was accepted for its txid and position against one header. */
  ghost predicate AllAccepted(d: Digest, paths: seq<MerklePath>, txids: seq<Hash>, positions: seq<nat>, header: CanonicalHeader) {
    && |paths| == |txids| == |positions| > 0
    && (forall i :: 0 <= i < |paths| ==> Accepts(d, paths[i], txids[i], positions[i], header))
  }

  /** The supplied levels of a path; a path too long or with missing nodes supplies none. */
  ghost function Part(path: MerklePath, depth: nat): (r: seq<Level>)
    ensures |r| == depth + 1
  {
    if |path.levels| <= depth + 1 && (forall level :: 0 <= level < |path.levels| ==> AllElements(path.levels[level]))
    then SuppliedLevels(path, depth)
    else seq(depth + 1, i => map[])
  }

  ghost function Parts(paths: seq<MerklePath>, depth: nat): (r: seq<seq<Level>>)
    ensures |r| == |paths|
    ensures forall i :: 0 <= i < |r| ==> r[i] == Part(paths[i], depth) && |r[i]| == depth + 1
  {
    seq(|paths|, i requires 0 <= i < |paths| => Part(paths[i], depth))
  }

  lemma AcceptedPart(d: Digest, path: MerklePath, txid: Hash, position: nat, header: CanonicalHeader)
    requires Accepts(d, path, txid, position, header)
    ensures var depth := MerkleProofDepth(header.transactionCount);
            && |path.levels| <= depth
            && AllPathElements(path)
            && (forall level :: 0 <= level < |path.levels| ==> AllElements(path.levels[level]))
            && Part(path, depth) == SuppliedLevels(path, depth)
  {
    AcceptedElements(d, path, txid, position, header);
    forall level | 0 <= level < |path.levels|
      ensures AllElements(path.levels[level])
    {
      assert AllElements(LevelElements(path, level));
    }
  }

  lemma ElementIsInPart(d: Digest, path: MerklePath, txid: Hash, position: nat, header: CanonicalHeader, level: nat, e: PathElement)
    requires Accepts(d, path, txid, position, header)
    requires level < MerkleProofDepth(header.transactionCount) && e in LevelElements(path, level)
    ensures e.PathElement? && At(Part(path, MerkleProofDepth(header.transactionCount))[level], e.offset) == NodeOf(e)
  {
    AcceptedPart(d, path, txid, position, header);
    LevelOfContents(path.levels[level]);
  }

  lemma NodeInPart(d: Digest, path: MerklePath, txid: Hash, position: nat, header: CanonicalHeader, level: nat, o: nat)
    requires Accepts(d, path, txid, position, header)
    requires level < MerkleProofDepth(header.transactionCount)
    requires !At(Part(path, MerkleProofDepth(header.transactionCount))[level], o).Absent?
    ensures exists e :: e in LevelElements(path, level) && e.PathElement? && e.offset == o
  {
    AcceptedPart(d, path, txid, position, header);
    LevelOfContents(path.levels[level]);
    var i :| 0 <= i < |path.levels[level]| && path.levels[level][i].offset == o;
    assert path.levels[level][i] in LevelElements(path, level);
  }

  lemma OneLeafPart(d: Digest, path: MerklePath, txid: Hash, position: nat, header: CanonicalHeader, o: nat)
    requires Accepts(d, path, txid, position, header) && header.transactionCount == 1
    ensures MerkleProofDepth(1) == 1
    ensures At(Part(path, 1)[0], o) == if o == 0 then Hashed(header.merkleRoot) else Absent
  {
    AcceptedPart(d, path, txid, position, header);
    LevelOfContents(path.levels[0]);
    SuppliedWellPlaced(path, 1, 1);
    assert Placed(At(SuppliedLevels(path, 1)[0], o), o, Width(1, 0));
  }

  /** Two accepted paths agree about a place that both supply. */
  lemma PartsAgree(d: Digest, p: MerklePath, q: MerklePath, txid: Hash, position: nat, txid': Hash, position': nat,
                   header: CanonicalHeader, level: nat, o: nat)
    requires Accepts(d, p, txid, position, header) && Accepts(d, q, txid', position', header)
    requires level < MerkleProofDepth(header.transactionCount)
    ensures var depth := MerkleProofDepth(header.transactionCount);
            var x, y := At(Part(p, depth)[level], o), At(Part(q, depth)[level], o);
            x.Absent? || y.Absent? || x == y || LevelsCollision(d, Part(p, depth), Part(q, depth))
  {
    var count, depth := header.transactionCount, MerkleProofDepth(header.transactionCount);
    AcceptedPart(d, p, txid, position, header);
    AcceptedPart(d, q, txid', position', header);
    var s, t := Part(p, depth), Part(q, depth);
    if !At(s[level], o).Absent? && !At(t[level], o).Absent? {
      if count == 1 {
        OneLeafPart(d, p, txid, position, header, o);
        OneLeafPart(d, q, txid', position', header, o);
      } else {
        ProofDepthIsLeast(count, depth);
        assert CompatibleAt(d, s, level, o) && CompatibleAt(d, t, level, o);
        KnownAgree(d, View(count, header.merkleRoot, s), View(count, header.merkleRoot, t), level, o);
      }
    }
  }

  lemma CollisionIsSymmetric(d: Digest, s: seq<Level>, t: seq<Level>)
    requires LevelsCollision(d, s, t)
    ensures LevelsCollision(d, t, s)
  {
    var level: nat, i: nat :| CollisionAt(d, s, t, level, i);
    assert CollisionAt(d, t, s, level, i);
  }

  lemma NoSelfCollision(d: Digest, s: seq<Level>)
    ensures !LevelsCollision(d, s, s)
  {
  }

  lemma PlacedHash(e: PathElement, f: PathElement)
    requires e.PathElement? && f.PathElement? && NodeOf(e) == NodeOf(f)
    ensures e.hash == f.hash
  {
  }

  lemma ElementsAgree(d: Digest, paths: seq<MerklePath>, txids: seq<Hash>, positions: seq<nat>, header: CanonicalHeader,
                      level: nat, e: PathElement, f: PathElement)
    requires AllAccepted(d, paths, txids, positions, header) && level < MerkleProofDepth(header.transactionCount)
    requires e in ElementsAt(paths, level) && f in ElementsAt(paths, level)
    requires !AnyCollision(d, Parts(paths, MerkleProofDepth(header.transactionCount)))
    ensures e.PathElement? && f.PathElement?
    ensures e.offset == f.offset ==> e.hash == f.hash
  {
    var depth := MerkleProofDepth(header.transactionCount);
    ElementsOfPaths(paths, level, e);
    ElementsOfPaths(paths, level, f);
    var i :| 0 <= i < |paths| && e in LevelElements(paths[i], level);
    var j :| 0 <= j < |paths| && f in LevelElements(paths[j], level);
    ElementIsInPart(d, paths[i], txids[i], positions[i], header, level, e);
    ElementIsInPart(d, paths[j], txids[j], positions[j], header, level, f);
    if e.offset == f.offset {
      PartsAgree(d, paths[i], paths[j], txids[i], positions[i], txids[j], positions[j], header, level, e.offset);
      NoCollisionBetween(d, Parts(paths, depth), i, j);
      PlacedHash(e, f);
    }
  }

  lemma NoCollisionBetween(d: Digest, parts: seq<seq<Level>>, i: nat, j: nat)
    requires !AnyCollision(d, parts) && i < |parts| && j < |parts|
    ensures !LevelsCollision(d, parts[i], parts[j])
  {
    if i == j {
      NoSelfCollision(d, parts[i]);
    } else if LevelsCollision(d, parts[i], parts[j]) {
      CollisionIsSymmetric(d, parts[i], parts[j]);
    }
  }

  /** Accepted proofs never conflict, or two of them exhibit a collision. */
  lemma AcceptedProofsDoNotConflict(d: Digest, paths: seq<MerklePath>, txids: seq<Hash>, positions: seq<nat>,
                                    header: CanonicalHeader)
    requires AllAccepted(d, paths, txids, positions, header)
    ensures || NoConflict(paths, MerkleProofDepth(header.transactionCount))
            || AnyCollision(d, Parts(paths, MerkleProofDepth(header.transactionCount)))
  {
    var depth := MerkleProofDepth(header.transactionCount);
    if !AnyCollision(d, Parts(paths, depth)) {
      forall level | 0 <= level < depth
        ensures AllElements(ElementsAt(paths, level)) && ConflictFree(ElementsAt(paths, level))
      {
        var elements := ElementsAt(paths, level);
        forall i | 0 <= i < |elements|
          ensures elements[i].PathElement?
        {
          ElementsAgree(d, paths, txids, positions, header, level, elements[i], elements[i]);
        }
        forall i, j | 0 <= i < j < |elements| && elements[i].offset == elements[j].offset
          ensures elements[i].hash == elements[j].hash
        {
          ElementsAgree(d, paths, txids, positions, header, level, elements[i], elements[j]);
        }
      }
    }
  }

  // The merged path

  /** The elements of a merged level in some order, as the encoder lists them. */
  ghost predicate Lists(nodes: seq<PathElement>, merged: ElementLevel) {
    && DistinctOffsets(nodes)
    && (forall i :: 0 <= i < |nodes| ==> nodes[i].offset in merged && merged[nodes[i].offset] == nodes[i])
    && (forall o :: o in merged ==> exists i :: 0 <= i < |nodes| && nodes[i].offset == o)
  }

  ghost predicate ListsMerged(path: MerklePath, merged: seq<ElementLevel>, height: nat) {
    && path.blockHeight == height && |path.levels| == |merged|
    && (forall level :: 0 <= level < |merged| ==> Lists(path.levels[level], merged[level]))
  }

  lemma MergedElementIsPlaced(d: Digest, paths: seq<MerklePath>, txids: seq<Hash>, positions: seq<nat>, header: CanonicalHeader,
                              merged: seq<ElementLevel>, path: MerklePath, level: nat, k: nat)
    requires AllAccepted(d, paths, txids, positions, header) && MergedFrom(merged, paths)
    requires |merged| == MerkleProofDepth(header.transactionCount) && ListsMerged(path, merged, header.height)
    requires level < |merged| && k < |path.levels[level]|
    ensures PlacedElement(path.levels[level][k], Width(header.transactionCount, level))
    ensures exists i :: 0 <= i < |paths| &&
              At(Parts(paths, |merged|)[i][level], path.levels[level][k].offset) == NodeOf(path.levels[level][k])
  {
    var elements, entry := ElementsAt(paths, level), path.levels[level][k];
    assert LevelFrom(merged[level], elements);
    assert Lists(path.levels[level], merged[level]);
    assert EntryFrom(elements, entry.offset, merged[level][entry.offset]);
    var n :| 0 <= n < |elements| && elements[n].offset == entry.offset && entry.hash == elements[n].hash &&
             entry.duplicate == elements[n].duplicate;
    ElementsOfPaths(paths, level, elements[n]);
    var i :| 0 <= i < |paths| && elements[n] in LevelElements(paths[i], level);
    assert PlacedElements(paths[i].levels[level], Width(header.transactionCount, level));
    assert PlacedElement(elements[n], Width(header.transactionCount, level));
    ElementIsInPart(d, paths[i], txids[i], positions[i], header, level, elements[n]);
  }

  lemma MergedIsWellFormed(d: Digest, paths: seq<MerklePath>, txids: seq<Hash>, positions: seq<nat>, header: CanonicalHeader,
                           merged: seq<ElementLevel>, path: MerklePath)
    requires AllAccepted(d, paths, txids, positions, header) && MergedFrom(merged, paths)
    requires |merged| == MerkleProofDepth(header.transactionCount) && ListsMerged(path, merged, header.height)
    ensures WellFormedPath(path, header.transactionCount)
  {
    forall level | 0 <= level < |path.levels|
      ensures PlacedElements(path.levels[level], Width(header.transactionCount, level))
      ensures DistinctOffsets(path.levels[level])
    {
      assert Lists(path.levels[level], merged[level]);
      forall k | 0 <= k < |path.levels[level]|
        ensures PlacedElement(path.levels[level][k], Width(header.transactionCount, level))
      {
        MergedElementIsPlaced(d, paths, txids, positions, header, merged, path, level, k);
      }
    }
  }

  /** A merged element is listed in its level with its hash. */
  lemma ListedElement(elements: seq<PathElement>, merged: ElementLevel, nodes: seq<PathElement>, e: PathElement)
    requires LevelFrom(merged, elements) && Lists(nodes, merged) && e in elements
    ensures e.PathElement? && At(LevelOf(nodes), e.offset) == NodeOf(e)
  {
    var n :| 0 <= n < |elements| && elements[n] == e;
    assert merged[e.offset].hash == elements[n].hash;
    var k :| 0 <= k < |nodes| && nodes[k].offset == e.offset;
    LevelOfContents(nodes);
    assert At(LevelOf(nodes), e.offset) == NodeOf(nodes[k]);
  }

  /** A node supplied by some path is supplied by the merged path, with the same hash. */
  lemma PartIsMerged(d: Digest, paths: seq<MerklePath>, txids: seq<Hash>, positions: seq<nat>, header: CanonicalHeader,
                     merged: seq<ElementLevel>, path: MerklePath, i: nat, level: nat, o: nat)
    requires AllAccepted(d, paths, txids, positions, header) && MergedFrom(merged, paths)
    requires |merged| == MerkleProofDepth(header.transactionCount) && ListsMerged(path, merged, header.height)
    requires WellFormedPath(path, header.transactionCount)
    requires i < |paths| && level < |merged| && !At(Part(paths[i], |merged|)[level], o).Absent?
    ensures At(LevelOf(path.levels[level]), o) == At(Part(paths[i], |merged|)[level], o)
  {
    NodeInPart(d, paths[i], txids[i], positions[i], header, level, o);
    var e :| e in LevelElements(paths[i], level) && e.PathElement? && e.offset == o;
    ElementIsInPart(d, paths[i], txids[i], positions[i], header, level, e);
    ElementsOfPaths(paths, level, e);
    assert LevelFrom(merged[level], ElementsAt(paths, level)) && Lists(path.levels[level], merged[level]);
    ListedElement(ElementsAt(paths, level), merged[level], path.levels[level], e);
  }

  lemma TopPartIsEmpty(d: Digest, paths: seq<MerklePath>, txids: seq<Hash>, positions: seq<nat>, header: CanonicalHeader, i: nat)
    requires AllAccepted(d, paths, txids, positions, header) && i < |paths|
    ensures var depth := MerkleProofDepth(header.transactionCount); Part(paths[i], depth)[depth] == map[]
  {
    AcceptedPart(d, paths[i], txids[i], positions[i], header);
  }

  lemma MergedNode(d: Digest, paths: seq<MerklePath>, txids: seq<Hash>, positions: seq<nat>, header: CanonicalHeader,
                   merged: seq<ElementLevel>, path: MerklePath, level: nat, o: nat)
    requires AllAccepted(d, paths, txids, positions, header) && MergedFrom(merged, paths)
    requires |merged| == MerkleProofDepth(header.transactionCount) && ListsMerged(path, merged, header.height)
    requires WellFormedPath(path, header.transactionCount) && level < |merged|
    ensures At(LevelOf(path.levels[level]), o) == At(UnionAll(Parts(paths, |merged|))[level], o)
  {
    var parts, nodes := Parts(paths, |merged|), path.levels[level];
    var u := UnionAll(parts);
    UnionAllNodes(parts, level, o);
    if !At(u[level], o).Absent? {
      var i :| 0 <= i < |parts| && At(parts[i][level], o) == At(u[level], o);
      PartIsMerged(d, paths, txids, positions, header, merged, path, i, level, o);
    } else if o in LevelOf(nodes) {
      assert Lists(nodes, merged[level]);
      LevelOfContents(nodes);
      var k :| 0 <= k < |nodes| && nodes[k].offset == o;
      MergedElementIsPlaced(d, paths, txids, positions, header, merged, path, level, k);
    }
  }

  lemma TopOfUnionIsEmpty(d: Digest, paths: seq<MerklePath>, txids: seq<Hash>, positions: seq<nat>, header: CanonicalHeader)
    requires AllAccepted(d, paths, txids, positions, header)
    ensures var depth := MerkleProofDepth(header.transactionCount); UnionAll(Parts(paths, depth))[depth] == map[]
  {
    var depth := MerkleProofDepth(header.transactionCount);
    var parts, top := Parts(paths, depth), UnionAll(Parts(paths, depth))[depth];
    forall o: nat
      ensures o !in top
    {
      UnionAllNodes(parts, depth, o);
      if !At(top, o).Absent? {
        var i :| 0 <= i < |parts| && At(parts[i][depth], o) == At(top, o);
        TopPartIsEmpty(d, paths, txids, positions, header, i);
      }
    }
  }

  lemma MergedIsUnion(d: Digest, paths: seq<MerklePath>, txids: seq<Hash>, positions: seq<nat>, header: CanonicalHeader,
                      merged: seq<ElementLevel>, path: MerklePath)
    requires AllAccepted(d, paths, txids, positions, header) && MergedFrom(merged, paths)
    requires |merged| == MerkleProofDepth(header.transactionCount) && ListsMerged(path, merged, header.height)
    requires WellFormedPath(path, header.transactionCount)
    ensures SuppliedLevels(path, |merged|) == UnionAll(Parts(paths, |merged|))
  {
    var u := UnionAll(Parts(paths, |merged|));
    TopOfUnionIsEmpty(d, paths, txids, positions, header);
    forall level | 0 <= level < |merged|
      ensures LevelOf(path.levels[level]) == u[level]
    {
      MergedLevel(d, paths, txids, positions, header, merged, path, level);
    }
    SuppliedIs(path, header.transactionCount, |merged|, u);
  }

  lemma SuppliedIs(path: MerklePath, count: nat, depth: nat, u: seq<Level>)
    requires WellFormedPath(path, count) && |path.levels| == depth && |u| == depth + 1 && u[depth] == map[]
    requires forall level :: 0 <= level < depth ==> LevelOf(path.levels[level]) == u[level]
    ensures SuppliedLevels(path, depth) == u
  {
  }

  lemma MergedLevel(d: Digest, paths: seq<MerklePath>, txids: seq<Hash>, positions: seq<nat>, header: CanonicalHeader,
                    merged: seq<ElementLevel>, path: MerklePath, level: nat)
    requires AllAccepted(d, paths, txids, positions, header) && MergedFrom(merged, paths)
    requires |merged| == MerkleProofDepth(header.transactionCount) && ListsMerged(path, merged, header.height)
    requires WellFormedPath(path, header.transactionCount) && level < |merged|
    ensures LevelOf(path.levels[level]) == UnionAll(Parts(paths, |merged|))[level]
  {
    var a, b := LevelOf(path.levels[level]), UnionAll(Parts(paths, |merged|))[level];
    forall o: nat
      ensures At(a, o) == At(b, o)
    {
      MergedNode(d, paths, txids, positions, header, merged, path, level, o);
    }
    SameNodes(a, b);
  }

  lemma SameNodes(a: Level, b: Level)
    requires forall o: nat :: At(a, o) == At(b, o)
    ensures a == b
  {
    forall o: nat
      ensures o in a <==> o in b
      ensures o in a ==> a[o] == b[o]
    {
      assert At(a, o) == At(b, o);
    }
  }

  /** The merged path proves every request, or two of the paths exhibit a collision. */
  lemma MergedProofIsAccepted(d: Digest, paths: seq<MerklePath>, txids: seq<Hash>, positions: seq<nat>, header: CanonicalHeader,
                              merged: seq<ElementLevel>, path: MerklePath)
    requires AllAccepted(d, paths, txids, positions, header) && MergedFrom(merged, paths)
    requires |merged| == MerkleProofDepth(header.transactionCount) && ListsMerged(path, merged, header.height)
    ensures || AnyCollision(d, Parts(paths, |merged|))
            || (forall i :: 0 <= i < |paths| ==> Accepts(d, path, txids[i], positions[i], header))
  {
    var count, depth, parts := header.transactionCount, |merged|, Parts(paths, |merged|);
    MergedIsWellFormed(d, paths, txids, positions, header, merged, path);
    if count == 1 {
      forall i | 0 <= i < |paths|
        ensures Accepts(d, path, txids[i], positions[i], header)
      {
        OneLeafIsAccepted(d, paths, txids, positions, header, merged, path, i);
      }
    } else if !AnyCollision(d, parts) {
      forall i | 0 <= i < |parts|
        ensures Valid(d, View(count, header.merkleRoot, parts[i]))
      {
        AcceptedPart(d, paths[i], txids[i], positions[i], header);
      }
      UnionAllIsValid(d, count, header.merkleRoot, parts);
      MergedIsUnion(d, paths, txids, positions, header, merged, path);
      forall i | 0 <= i < |paths|
        ensures Accepts(d, path, txids[i], positions[i], header)
      {
        AcceptedPart(d, paths[i], txids[i], positions[i], header);
        PartIsMerged(d, paths, txids, positions, header, merged, path, i, 0, positions[i]);
      }
    }
  }

  lemma OneLeafIsAccepted(d: Digest, paths: seq<MerklePath>, txids: seq<Hash>, positions: seq<nat>, header: CanonicalHeader,
                          merged: seq<ElementLevel>, path: MerklePath, i: nat)
    requires AllAccepted(d, paths, txids, positions, header) && MergedFrom(merged, paths)
    requires |merged| == MerkleProofDepth(header.transactionCount) && ListsMerged(path, merged, header.height)
    requires WellFormedPath(path, header.transactionCount) && header.transactionCount == 1 && i < |paths|
    ensures Accepts(d, path, txids[i], positions[i], header)
  {
    OneLeafPart(d, paths[i], txids[i], positions[i], header, 0);
    AcceptedPart(d, paths[i], txids[i], positions[i], header);
    PartIsMerged(d, paths, txids, positions, header, merged, path, i, 0, 0);
    var nodes := path.levels[0];
    assert DistinctOffsets(nodes) && PlacedElements(nodes, Width(1, 0));
    LevelOfContents(nodes);
    var k :| 0 <= k < |nodes| && nodes[k].offset == 0;
    forall n | 0 <= n < |nodes|
      ensures nodes[n].offset == 0
    {
      assert PlacedElement(nodes[n], Width(1, 0));
    }
    assert |nodes| == 1;
  }
}
