/** What an accepted proof says about the leaves of the block, and which proofs are accepted. */
module ProofSoundness {
  import opened BasmProof
  import opened Bytes
  import opened Merkle
  import opened ProofLevels
  import opened Wrappers

  // The whole tree as a sparse tree

  /** The node of the full tree at a place; an odd level above one node ends in a duplicate marker. */
  function TrueNode(d: Digest, leaves: seq<Hash>, level: nat, o: nat): Node {
    var width := Width(|leaves|, level);
    if o < width then Hashed(Layer(d, leaves, level)[o])
    else if width > 1 && width % 2 == 1 && o == width then Duplicate
    else Absent
  }

  /** True children derive exactly the true hashes of the next level. */
  lemma TrueParent(d: Digest, leaves: seq<Hash>, level: nat, a: nat)
    requires Width(|leaves|, level) > 1
    ensures var left, right := TrueNode(d, leaves, level, 2 * a), TrueNode(d, leaves, level, 2 * a + 1);
            && (IsPair(left, right) <==> a < Width(|leaves|, level + 1))
            && (IsPair(left, right) ==> PairOf(left, right) == PairAt(Layer(d, leaves, level), a))
            && ParentOf(d, left, right) == (if TrueNode(d, leaves, level + 1, a).Hashed?
                                            then TrueNode(d, leaves, level + 1, a) else Absent)
  {
    if a < Width(|leaves|, level + 1) {
      ParentAt(d, Layer(d, leaves, level), a);
    }
  }

  /** All leaves, and the markers that no hash derives. */
  function FullLevel(leaves: seq<Hash>, level: nat): Level {
    var width := Width(|leaves|, level);
    var markers: Level := if width > 1 && width % 2 == 1 then map[width := Duplicate] else map[];
    if level == 0 then (map o: nat | o < |leaves| :: Hashed(leaves[o])) + markers else markers
  }

  function FullLevels(leaves: seq<Hash>, depth: nat): (r: seq<Level>)
    ensures |r| == depth + 1
    ensures forall level :: 0 <= level <= depth ==> r[level] == FullLevel(leaves, level)
  {
    seq(depth + 1, level requires 0 <= level <= depth => FullLevel(leaves, level))
  }

  lemma FullLevelNodes(d: Digest, leaves: seq<Hash>, level: nat, o: nat)
    ensures At(FullLevel(leaves, level), o) ==
            if level == 0 || TrueNode(d, leaves, level, o) == Duplicate then TrueNode(d, leaves, level, o) else Absent
  {
  }

  lemma {:induction false} FullKnown(d: Digest, leaves: seq<Hash>, depth: nat, level: nat, o: nat)
    requires |leaves| > 1 && depth == TreeHeight(|leaves|) && level <= depth
    ensures Known(d, FullLevels(leaves, depth), level, o) == TrueNode(d, leaves, level, o)
  {
    hide HalfUp, Width, Layer;
    var s := FullLevels(leaves, depth);
    FullLevelNodes(d, leaves, level, o);
    if level > 0 {
      FullKnown(d, leaves, depth, level - 1, 2 * o);
      FullKnown(d, leaves, depth, level - 1, 2 * o + 1);
      WidthAboveOne(|leaves|, level - 1);
      assert ParentOf(d, Known(d, s, level - 1, 2 * o), Known(d, s, level - 1, 2 * o + 1)) ==
             (if TrueNode(d, leaves, level, o).Hashed? then TrueNode(d, leaves, level, o) else Absent) by {
        TrueParent(d, leaves, level - 1, o);
      }
    }
  }

  lemma {:induction false} OffsetHasBase(n: nat, level: nat, o: nat) returns (b: nat)
    requires o < Width(n, level)
    ensures b < n && Shift(b, level) == o
  {
    if level == 0 {
      b := o;
    } else {
      b := OffsetHasBase(n, level - 1, 2 * o);
    }
  }

  lemma FullIsConnected(d: Digest, leaves: seq<Hash>, depth: nat, b: nat, level: nat)
    requires |leaves| > 1 && depth == TreeHeight(|leaves|) && level < depth && b < |leaves|
    ensures ConnectedAt(d, FullLevels(leaves, depth), b, level)
  {
    ShiftInWidth(|leaves|, b, level);
    ShiftInWidth(|leaves|, b, level + 1);
    WidthAboveOne(|leaves|, level);
    FullKnown(d, leaves, depth, level, Sibling(Shift(b, level)));
    FullKnown(d, leaves, depth, level + 1, Shift(b, level + 1));
  }

  lemma FullIsLegal(leaves: seq<Hash>, depth: nat)
    requires |leaves| > 1
    ensures Legal(FullLevels(leaves, depth))
  {
    var s := FullLevels(leaves, depth);
    forall level: nat, o: nat | 1 <= level < |s| && !At(s[level], o).Absent?
      ensures SiblingOfAncestor(s, level, o)
    {
      var b := OffsetHasBase(|leaves|, level, Width(|leaves|, level) - 1);
      assert IsBase(s, b);
    }
  }

  lemma FullIsCompatible(d: Digest, leaves: seq<Hash>, depth: nat)
    requires |leaves| > 1 && depth == TreeHeight(|leaves|)
    ensures Compatible(d, FullLevels(leaves, depth)) && WellPlaced(FullLevels(leaves, depth), |leaves|)
  {
    var s := FullLevels(leaves, depth);
    forall level: nat, o: nat | level < |s|
      ensures CompatibleAt(d, s, level, o) && Placed(At(s[level], o), o, Width(|leaves|, level))
    {
      FullLevelNodes(d, leaves, level, o);
      FullKnown(d, leaves, depth, level, o);
    }
  }

  lemma FullHasRoot(d: Digest, leaves: seq<Hash>, depth: nat)
    requires |leaves| > 1 && depth == TreeHeight(|leaves|)
    ensures Known(d, FullLevels(leaves, depth), depth, 0) == Hashed(MerkleRoot(d, leaves))
  {
    RootIsTopLayer(d, leaves);
    FullKnown(d, leaves, depth, depth, 0);
  }

  lemma FullBaseInRange(leaves: seq<Hash>, depth: nat, b: nat)
    ensures IsBase(FullLevels(leaves, depth), b) <==> b < |leaves|
  {
  }

  lemma FullIsValid(d: Digest, leaves: seq<Hash>, depth: nat)
    requires |leaves| > 1 && depth == TreeHeight(|leaves|)
    ensures Valid(d, View(|leaves|, MerkleRoot(d, leaves), FullLevels(leaves, depth)))
  {
    var s := FullLevels(leaves, depth);
    FullIsLegal(leaves, depth);
    FullIsCompatible(d, leaves, depth);
    FullHasRoot(d, leaves, depth);
    forall b | IsBase(s, b)
      ensures Connected(d, s, b)
    {
      FullBaseInRange(leaves, depth, b);
      forall level | 0 <= level < depth
        ensures ConnectedAt(d, s, b, level)
      {
        FullIsConnected(d, leaves, depth, b, level);
      }
    }
  }

  // Soundness

  /** The proof and the tree hash different pairs to one parent at some place. */
  ghost predicate ProofTreeCollision(d: Digest, s: seq<Level>, leaves: seq<Hash>) {
    exists level: nat, a: nat :: ProofTreeCollisionAt(d, s, leaves, level, a)
  }

  ghost predicate ProofTreeCollisionAt(d: Digest, s: seq<Level>, leaves: seq<Hash>, level: nat, a: nat) {
    && level < |s| && HasPair(d, s, level, a) && a < HalfUp(Width(|leaves|, level))
    && Collision(d, PairIn(d, s, level, a), PairAt(Layer(d, leaves, level), a))
  }

  lemma CollisionIsWithTree(d: Digest, s: seq<Level>, leaves: seq<Hash>, depth: nat, level: nat, a: nat)
    requires |leaves| > 1 && depth == TreeHeight(|leaves|) && |s| == depth + 1
    requires CollisionAt(d, s, FullLevels(leaves, depth), level, a) && WellPlaced(s, |leaves|)
    ensures ProofTreeCollisionAt(d, s, leaves, level, a)
  {
    FullKnown(d, leaves, depth, level, 2 * a);
    FullKnown(d, leaves, depth, level, 2 * a + 1);
    WidthAboveOne(|leaves|, level);
    if level == depth {
      KnownPlaced(d, s, |leaves|, level, 2 * a);
      KnownPlaced(d, s, |leaves|, level, 2 * a + 1);
    } else {
      TrueParent(d, leaves, level, a);
    }
  }

  lemma KnownIsTrue(d: Digest, v: View, leaves: seq<Hash>, level: nat, o: nat)
    requires Valid(d, v) && v.count == |leaves| && v.root == MerkleRoot(d, leaves)
    requires level < |v.supplied| && !Known(d, v.supplied, level, o).Absent?
    ensures ProofTreeCollision(d, v.supplied, leaves) || Known(d, v.supplied, level, o) == TrueNode(d, leaves, level, o)
  {
    var depth := TreeHeight(|leaves|);
    var full := View(|leaves|, MerkleRoot(d, leaves), FullLevels(leaves, depth));
    FullIsValid(d, leaves, depth);
    FullKnown(d, leaves, depth, level, o);
    KnownPlaced(d, v.supplied, v.count, level, o);
    KnownAgree(d, v, full, level, o);
    if LevelsCollision(d, v.supplied, full.supplied) {
      var l: nat, a: nat :| CollisionAt(d, v.supplied, full.supplied, l, a);
      CollisionIsWithTree(d, v.supplied, leaves, depth, l, a);
    }
  }

  /** Every supplied node, requested or not, is the node of the tree at its place. */
  ghost predicate SuppliedIsTrue(d: Digest, path: MerklePath, leaves: seq<Hash>) {
    forall level, i :: 0 <= level < |path.levels| && 0 <= i < |path.levels[level]| ==>
      && path.levels[level][i].PathElement?
      && NodeOf(path.levels[level][i]) == TrueNode(d, leaves, level, path.levels[level][i].offset)
  }

  /**
   An accepted proof shows the txid at its position in every list of leaves with the header's count and root,
   and supplies nothing else than nodes of that tree; otherwise two pairs with one hash are at hand.
   */
  lemma ProofIsSound(d: Digest, path: MerklePath, txid: Hash, position: nat, header: CanonicalHeader, leaves: seq<Hash>)
    requires Accepts(d, path, txid, position, header)
    requires |leaves| == header.transactionCount && MerkleRoot(d, leaves) == header.merkleRoot
    ensures var s := SuppliedLevels(path, MerkleProofDepth(header.transactionCount));
            || ProofTreeCollision(d, s, leaves)
            || (position < |leaves| && leaves[position] == txid && SuppliedIsTrue(d, path, leaves))
  {
    var count, depth := header.transactionCount, MerkleProofDepth(header.transactionCount);
    var s := SuppliedLevels(path, depth);
    LevelOfContents(path.levels[0]);
    if count == 1 {
      assert PlacedElement(path.levels[0][0], Width(count, 0));
    } else if !ProofTreeCollision(d, s, leaves) {
      var v := View(count, header.merkleRoot, s);
      ProofDepthIsLeast(count, depth);
      KnownIsTrue(d, v, leaves, 0, position);
      forall level, i | 0 <= level < |path.levels| && 0 <= i < |path.levels[level]|
        ensures NodeOf(path.levels[level][i]) == TrueNode(d, leaves, level, path.levels[level][i].offset)
      {
        var e := path.levels[level][i];
        LevelOfContents(path.levels[level]);
        assert CompatibleAt(d, s, level, e.offset);
        KnownIsTrue(d, v, leaves, level, e.offset);
      }
    }
  }

  // Completeness

  /** A BUMP element for a node of the tree. */
  function ElementAt(node: StoredNode, offset: nat, requested: bool): (e: PathElement)
    ensures e.PathElement? && NodeOf(e) == node && e.offset == offset
  {
    match node
    case Hashed(h) => PathElement(offset, Some(h), if requested then Some(true) else None, None)
    case Duplicate => PathElement(offset, None, None, Some(true))
  }

  function SiblingElement(d: Digest, leaves: seq<Hash>, position: nat, level: nat): seq<PathElement> {
    var o := Sibling(Shift(position, level));
    var node := TrueNode(d, leaves, level, o);
    if node.Absent? then [] else [ElementAt(node, o, false)]
  }

  function ProofLevelFor(d: Digest, leaves: seq<Hash>, position: nat, level: nat): seq<PathElement>
    requires position < |leaves|
  {
    (if level == 0 then [ElementAt(Hashed(leaves[position]), position, true)] else [])
      + SiblingElement(d, leaves, position, level)
  }

  /** The leaf with its sibling, or a marker at an odd edge, and the sibling of each ancestor. */
  function ProofFor(d: Digest, leaves: seq<Hash>, position: nat, height: nat): (path: MerklePath)
    requires position < |leaves|
    ensures |path.levels| == MerkleProofDepth(|leaves|)
    ensures forall level :: 0 <= level < |path.levels| ==>
              path.levels[level] == ProofLevelFor(d, leaves, position, level)
  {
    var depth := MerkleProofDepth(|leaves|);
    MerklePath(height, seq(depth, level requires 0 <= level < depth => ProofLevelFor(d, leaves, position, level)))
  }

  lemma ProofForLevelIsListed(d: Digest, leaves: seq<Hash>, position: nat, level: nat)
    requires position < |leaves|
    ensures PlacedElements(ProofLevelFor(d, leaves, position, level), Width(|leaves|, level))
    ensures DistinctOffsets(ProofLevelFor(d, leaves, position, level))
  {
  }

  lemma LevelOfLast(nodes: seq<PathElement>, e: PathElement, o: nat)
    requires e.PathElement? && forall i :: 0 <= i < |nodes| ==> nodes[i].PathElement?
    ensures At(LevelOf(nodes + [e]), o) == if o == e.offset then NodeOf(e) else At(LevelOf(nodes), o)
  {
    assert (nodes + [e])[..|nodes|] == nodes;
  }

  lemma ProofForLevelNodes(d: Digest, leaves: seq<Hash>, position: nat, level: nat, o: nat)
    requires position < |leaves|
    ensures At(LevelOf(ProofLevelFor(d, leaves, position, level)), o) ==
            if o == Sibling(Shift(position, level)) || (level == 0 && o == position)
            then TrueNode(d, leaves, level, o) else Absent
  {
    var leaf := ElementAt(Hashed(leaves[position]), position, true);
    var head := if level == 0 then [leaf] else [];
    var sibling := Sibling(Shift(position, level));
    var node := TrueNode(d, leaves, level, sibling);
    assert At(LevelOf(head), o) == if level == 0 && o == position then TrueNode(d, leaves, 0, o) else Absent by {
      LevelOfLast([], leaf, o);
      assert [] + [leaf] == [leaf];
    }
    if node.Absent? {
      assert ProofLevelFor(d, leaves, position, level) == head;
    } else {
      LevelOfLast(head, ElementAt(node, sibling, false), o);
      assert ProofLevelFor(d, leaves, position, level) == head + [ElementAt(node, sibling, false)];
    }
  }

  ghost predicate TrueAt(d: Digest, s: seq<Level>, leaves: seq<Hash>, level: nat, o: nat) {
    level < |s| ==> At(s[level], o).Absent? || At(s[level], o) == TrueNode(d, leaves, level, o)
  }

  /** Only true nodes are supplied. */
  ghost predicate TrueLevels(d: Digest, s: seq<Level>, leaves: seq<Hash>) {
    forall level: nat, o: nat :: TrueAt(d, s, leaves, level, o)
  }

  lemma ParentIsTrue(d: Digest, leaves: seq<Hash>, level: nat, a: nat, left: Node, right: Node)
    requires Width(|leaves|, level) > 1 && IsPair(left, right)
    requires left == TrueNode(d, leaves, level, 2 * a) && right == TrueNode(d, leaves, level, 2 * a + 1)
    ensures ParentOf(d, left, right) == TrueNode(d, leaves, level + 1, a)
  {
    TrueParent(d, leaves, level, a);
  }

  /** True nodes only derive true nodes. */
  lemma {:induction false} TrueLevelsKnowTruth(d: Digest, s: seq<Level>, leaves: seq<Hash>, level: nat, o: nat)
    requires |leaves| > 1 && |s| == TreeHeight(|leaves|) + 1 && level < |s| && TrueLevels(d, s, leaves)
    requires !Known(d, s, level, o).Absent?
    ensures Known(d, s, level, o) == TrueNode(d, leaves, level, o)
  {
    assert TrueAt(d, s, leaves, level, o);
    if level > 0 && HasPair(d, s, level - 1, o) {
      TrueLevelsKnowTruth(d, s, leaves, level - 1, 2 * o);
      TrueLevelsKnowTruth(d, s, leaves, level - 1, 2 * o + 1);
      WidthAboveOne(|leaves|, level - 1);
      ParentIsTrue(d, leaves, level - 1, o, Known(d, s, level - 1, 2 * o), Known(d, s, level - 1, 2 * o + 1));
    }
  }

  /** The siblings along the way of a position are supplied. */
  ghost predicate SuppliesSiblings(d: Digest, s: seq<Level>, leaves: seq<Hash>, position: nat) {
    forall level: nat :: level < |s| - 1 ==> SuppliesSiblingAt(d, s, leaves, position, level)
  }

  ghost predicate SuppliesSiblingAt(d: Digest, s: seq<Level>, leaves: seq<Hash>, position: nat, level: nat) {
    var o := Sibling(Shift(position, level));
    level < |s| && At(s[level], o) == TrueNode(d, leaves, level, o)
  }

  lemma TrueSibling(d: Digest, leaves: seq<Hash>, position: nat, level: nat)
    requires position < |leaves| && level < TreeHeight(|leaves|)
    ensures TrueNode(d, leaves, level, Shift(position, level)).Hashed?
    ensures !TrueNode(d, leaves, level, Sibling(Shift(position, level))).Absent?
  {
    var a, width := Shift(position, level), Width(|leaves|, level);
    ShiftInWidth(|leaves|, position, level);
    WidthAboveOne(|leaves|, level);
    SiblingInLevel(a, width);
  }

  lemma SiblingInLevel(a: nat, width: nat)
    requires a < width
    ensures Sibling(a) < width || (Sibling(a) == width && width % 2 == 1)
  {
  }

  /** A path to the root is known when the siblings along it are supplied. */
  lemma {:induction false} PathIsKnown(d: Digest, s: seq<Level>, leaves: seq<Hash>, position: nat, level: nat)
    requires |leaves| > 1 && |s| == TreeHeight(|leaves|) + 1 && level < |s|
    requires WellPlaced(s, |leaves|) && SuppliesSiblings(d, s, leaves, position)
    requires position < |leaves| && At(s[0], position).Hashed?
    ensures Known(d, s, level, Shift(position, level)).Hashed?
    ensures level + 1 < |s| ==> !Known(d, s, level, Sibling(Shift(position, level))).Absent?
  {
    if level + 1 < |s| {
      assert SuppliesSiblingAt(d, s, leaves, position, level);
      TrueSibling(d, leaves, position, level);
    }
    if level > 0 {
      PathIsKnown(d, s, leaves, position, level - 1);
      SiblingsArePair(d, s, |leaves|, level - 1, Shift(position, level - 1));
    }
  }
  lemma {:induction false} ShiftSibling(a: nat, level: nat)
    requires level >= 1
    ensures Shift(Sibling(a), level) == Shift(a, level)
  {
    if level == 1 {
      SiblingPair(a);
    } else {
      ShiftSibling(a, level - 1);
    }
  }

  /** A supplied node is a true sibling along the way of the position, or its leaf. */
  ghost predicate OnSiblingPathAt(d: Digest, s: seq<Level>, leaves: seq<Hash>, position: nat, level: nat, o: nat) {
    level < |s| && !At(s[level], o).Absent? ==>
      && At(s[level], o) == TrueNode(d, leaves, level, o)
      && (o == Sibling(Shift(position, level)) || (level == 0 && o == position))
  }

  ghost predicate IsSiblingPath(d: Digest, s: seq<Level>, leaves: seq<Hash>, position: nat) {
    && |leaves| > 1 && |s| == TreeHeight(|leaves|) + 1 && WellPlaced(s, |leaves|)
    && position < |leaves| && At(s[0], position).Hashed?
    && SuppliesSiblings(d, s, leaves, position)
    && (forall level: nat, o: nat :: OnSiblingPathAt(d, s, leaves, position, level, o))
  }

  lemma ProofForIsSiblingPath(d: Digest, leaves: seq<Hash>, position: nat, height: nat)
    requires position < |leaves| && |leaves| > 1
    requires WellPlaced(SuppliedLevels(ProofFor(d, leaves, position, height), MerkleProofDepth(|leaves|)), |leaves|)
    ensures var s := SuppliedLevels(ProofFor(d, leaves, position, height), MerkleProofDepth(|leaves|));
            IsSiblingPath(d, s, leaves, position) && At(s[0], position) == Hashed(leaves[position])
  {
    ProofDepthIsLeast(|leaves|, 0);
    var s := SuppliedLevels(ProofFor(d, leaves, position, height), MerkleProofDepth(|leaves|));
    forall level: nat, o: nat
      ensures OnSiblingPathAt(d, s, leaves, position, level, o)
    {
      if level < |s| - 1 {
        ProofForLevelNodes(d, leaves, position, level, o);
      }
    }
    ProofForLevelNodes(d, leaves, position, 0, position);
    forall level: nat | level < |s| - 1
      ensures SuppliesSiblingAt(d, s, leaves, position, level)
    {
      ProofForLevelNodes(d, leaves, position, level, Sibling(Shift(position, level)));
    }
  }

  lemma SiblingOfSibling(a: nat)
    ensures Sibling(Sibling(a)) == a
  {
  }

  lemma SiblingPathConnects(d: Digest, s: seq<Level>, leaves: seq<Hash>, position: nat, b: nat, level: nat)
    requires IsSiblingPath(d, s, leaves, position) && level + 1 < |s|
    requires b == position || b == Sibling(position)
    ensures ConnectedAt(d, s, b, level)
  {
    PathIsKnown(d, s, leaves, position, level);
    PathIsKnown(d, s, leaves, position, level + 1);
    if b != position {
      ShiftSibling(position, level + 1);
      assert !Known(d, s, level, Sibling(Shift(b, level))).Absent? by {
        if level > 0 {
          ShiftSibling(position, level);
        } else {
          SiblingOfSibling(position);
        }
      }
    }
  }

  lemma SiblingPathIsLegal(d: Digest, s: seq<Level>, leaves: seq<Hash>, position: nat)
    requires IsSiblingPath(d, s, leaves, position)
    ensures Legal(s)
  {
    assert IsBase(s, position);
    forall level: nat, o: nat | 1 <= level < |s| && !At(s[level], o).Absent?
      ensures SiblingOfAncestor(s, level, o)
    {
      assert OnSiblingPathAt(d, s, leaves, position, level, o);
      SiblingPair(Shift(position, level));
    }
  }

  lemma SiblingPathIsTrue(d: Digest, s: seq<Level>, leaves: seq<Hash>, position: nat, level: nat, o: nat)
    requires IsSiblingPath(d, s, leaves, position) && level < |s|
    ensures CompatibleAt(d, s, level, o)
    ensures !Known(d, s, level, o).Absent? ==> Known(d, s, level, o) == TrueNode(d, leaves, level, o)
  {
    forall l: nat, p: nat
      ensures TrueAt(d, s, leaves, l, p)
    {
      assert OnSiblingPathAt(d, s, leaves, position, l, p);
    }
    if !Known(d, s, level, o).Absent? {
      TrueLevelsKnowTruth(d, s, leaves, level, o);
      assert TrueAt(d, s, leaves, level, o);
    }
  }

  lemma SiblingPathHasRoot(d: Digest, s: seq<Level>, leaves: seq<Hash>, position: nat)
    requires IsSiblingPath(d, s, leaves, position)
    ensures Known(d, s, |s| - 1, 0) == Hashed(MerkleRoot(d, leaves))
  {
    hide HalfUp, Shift, Sibling;
    PathIsKnown(d, s, leaves, position, |s| - 1);
    TopOffset(|leaves|, position);
    SiblingPathIsTrue(d, s, leaves, position, |s| - 1, 0);
    RootIsTopLayer(d, leaves);
  }

  lemma SiblingPathIsValid(d: Digest, s: seq<Level>, leaves: seq<Hash>, position: nat)
    requires IsSiblingPath(d, s, leaves, position)
    ensures Valid(d, View(|leaves|, MerkleRoot(d, leaves), s))
  {
    SiblingPathIsLegal(d, s, leaves, position);
    forall level: nat, o: nat | level < |s|
      ensures CompatibleAt(d, s, level, o)
    {
      SiblingPathIsTrue(d, s, leaves, position, level, o);
    }
    SiblingPathHasRoot(d, s, leaves, position);
    forall b | IsBase(s, b)
      ensures Connected(d, s, b)
    {
      assert OnSiblingPathAt(d, s, leaves, position, 0, b);
      forall level | 0 <= level < |s| - 1
        ensures ConnectedAt(d, s, b, level)
      {
        SiblingPathConnects(d, s, leaves, position, b, level);
      }
    }
  }

  lemma TopOffset(n: nat, position: nat)
    requires position < n
    ensures Shift(position, TreeHeight(n)) == 0
  {
    ShiftInWidth(n, position, TreeHeight(n));
    WidthAboveOne(n, TreeHeight(n));
  }

  /** For every block and position, the path of siblings is accepted against the block's root. */
  lemma ProofIsComplete(d: Digest, leaves: seq<Hash>, position: nat, header: CanonicalHeader)
    requires position < |leaves|
    requires |leaves| == header.transactionCount && MerkleRoot(d, leaves) == header.merkleRoot
    ensures Accepts(d, ProofFor(d, leaves, position, header.height), leaves[position], position, header)
  {
    var path := ProofFor(d, leaves, position, header.height);
    forall level | 0 <= level < |path.levels|
      ensures PlacedElements(path.levels[level], Width(|leaves|, level)) && DistinctOffsets(path.levels[level])
    {
      ProofForLevelIsListed(d, leaves, position, level);
    }
    var depth := MerkleProofDepth(|leaves|);
    var s := SuppliedLevels(path, depth);
    SuppliedWellPlaced(path, |leaves|, depth);
    if |leaves| == 1 {
      ProofForLevelNodes(d, leaves, 0, 0, 0);
    } else {
      ProofForIsSiblingPath(d, leaves, position, header.height);
      SiblingPathIsValid(d, s, leaves, position);
    }
  }
}
