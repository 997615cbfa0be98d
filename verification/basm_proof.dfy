/** The BUMP checks of pkg/core/engine/basm-read-proof.go, proved against a declarative acceptance condition. */
module BasmProof {
  import opened Bytes
  import opened Merkle
  import opened ProofLevels
  import opened Wrappers

  /** A node of a BUMP; the flags are optional, as the pointers of the source are. */
  datatype PathElement =
    | NilElement
    | PathElement(offset: nat, hash: Option<Hash>, txid: Option<bool>, duplicate: Option<bool>)

  datatype MerklePath = MerklePath(blockHeight: nat, levels: seq<seq<PathElement>>)

  datatype CanonicalHeader = CanonicalHeader(height: nat, blockHash: Hash, merkleRoot: Hash, transactionCount: nat)

  // Depth

  /** bits.Len64 */
  function BitLength(x: nat): nat {
    if x == 0 then 0 else 1 + BitLength(x / 2)
  }

  /** A count of zero wraps around to the largest 64-bit value before its length is taken. */
  function MerkleProofDepth(count: nat): nat {
    var depth := BitLength(if count == 0 then TwoTo64 - 1 else count - 1);
    if depth == 0 then 1 else depth
  }

  lemma {:induction false} BitLengthIsHeight(count: nat)
    requires count >= 1
    ensures BitLength(count - 1) == TreeHeight(count)
    decreases count
  {
    if count > 1 {
      BitLengthIsHeight(HalfUp(count));
      assert HalfUp(count) - 1 == (count - 1) / 2;
    }
  }

  lemma {:induction false} BitLengthBounds(x: nat)
    ensures x < Pow2(BitLength(x))
    ensures x > 0 ==> Pow2(BitLength(x) - 1) <= x
  {
    if x > 0 {
      BitLengthBounds(x / 2);
    }
  }

  /** The depth is the least number of levels whose leaves reach the transaction count, and one for a single leaf. */
  lemma ProofDepthIsLeast(count: nat, depth: nat)
    requires count >= 1
    ensures count == 1 ==> MerkleProofDepth(count) == 1
    ensures count > 1 ==> MerkleProofDepth(count) == TreeHeight(count)
    ensures Pow2(MerkleProofDepth(count)) >= count
    ensures Pow2(depth) >= count ==> depth >= MerkleProofDepth(count) || count == 1
  {
    BitLengthIsHeight(count);
    BitLengthBounds(count - 1);
    if count > 1 && depth < MerkleProofDepth(count) {
      Pow2Monotone(depth, BitLength(count - 1) - 1);
    }
  }

  lemma {:induction false} Pow2Monotone(a: nat, b: nat)
    requires a <= b
    ensures Pow2(a) <= Pow2(b)
    decreases b
  {
    if a < b {
      Pow2Monotone(a, b - 1);
    }
  }

  // The acceptance condition

  predicate IsDuplicate(e: PathElement)
    requires e.PathElement?
  {
    e.duplicate == Some(true)
  }

  predicate PlacedElement(e: PathElement, width: nat) {
    e.PathElement? &&
    if IsDuplicate(e) then e.hash.None? && width > 1 && width % 2 == 1 && e.offset == width
    else e.hash.Some? && e.offset < width
  }

  function NodeOf(e: PathElement): StoredNode
    requires e.PathElement?
  {
    if e.hash.Some? then Hashed(e.hash.value) else Duplicate
  }

  ghost predicate PlacedElements(nodes: seq<PathElement>, width: nat) {
    forall i :: 0 <= i < |nodes| ==> PlacedElement(nodes[i], width)
  }

  ghost predicate DistinctOffsets(nodes: seq<PathElement>) {
    && (forall i :: 0 <= i < |nodes| ==> nodes[i].PathElement?)
    && (forall i, j :: 0 <= i < j < |nodes| ==> nodes[i].offset != nodes[j].offset)
  }

  /** Each supplied offset is the sibling of an ancestor of a supplied base hash. */
  ghost predicate LegalElements(base: Level, level: nat, nodes: seq<PathElement>) {
    forall i :: 0 <= i < |nodes| ==> nodes[i].PathElement? && SiblingOfAncestor([base], level, nodes[i].offset)
  }

  /** A list of nodes as a level of the sparse tree. */
  function LevelOf(nodes: seq<PathElement>): (r: Level)
    requires forall i :: 0 <= i < |nodes| ==> nodes[i].PathElement?
  {
    if nodes == [] then map[]
    else LevelOf(nodes[..|nodes| - 1])[nodes[|nodes| - 1].offset := NodeOf(nodes[|nodes| - 1])]
  }

  ghost predicate WellFormedPath(path: MerklePath, count: nat) {
    forall level :: 0 <= level < |path.levels| ==>
      && PlacedElements(path.levels[level], Width(count, level))
      && DistinctOffsets(path.levels[level])
  }

  /** The supplied levels, missing upper levels being empty. */
  function SuppliedLevels(path: MerklePath, depth: nat): (r: seq<Level>)
    requires |path.levels| <= depth + 1
    requires forall level :: 0 <= level < |path.levels| ==>
               forall i :: 0 <= i < |path.levels[level]| ==> path.levels[level][i].PathElement?
    ensures |r| == depth + 1
    ensures forall level :: 0 <= level <= depth ==>
              r[level] == if level < |path.levels| then LevelOf(path.levels[level]) else map[]
  {
    seq(depth + 1, level requires 0 <= level <= depth =>
      if level < |path.levels| then LevelOf(path.levels[level]) else map[])
  }

  /** What it means for a path to prove txid at a position of the block of a header. */
  ghost predicate Accepts(d: Digest, path: MerklePath, txid: Hash, position: nat, header: CanonicalHeader) {
    var count, depth := header.transactionCount, MerkleProofDepth(header.transactionCount);
    && path.blockHeight == header.height
    && 1 <= |path.levels| <= depth
    && WellFormedPath(path, count)
    && var s := SuppliedLevels(path, depth);
       && At(s[0], position) == Hashed(txid)
       && if count == 1 then |path.levels[0]| == 1 && position == 0 && txid == header.merkleRoot
          else Valid(d, View(count, header.merkleRoot, s))
  }

  // Lists as levels

  lemma {:induction false} LevelOfContents(nodes: seq<PathElement>)
    requires DistinctOffsets(nodes)
    ensures forall i :: 0 <= i < |nodes| ==> At(LevelOf(nodes), nodes[i].offset) == NodeOf(nodes[i])
    ensures forall o :: o in LevelOf(nodes) ==> exists i :: 0 <= i < |nodes| && nodes[i].offset == o
  {
    if nodes != [] {
      var front := nodes[..|nodes| - 1];
      LevelOfContents(front);
      forall o | o in LevelOf(nodes)
        ensures exists i :: 0 <= i < |nodes| && nodes[i].offset == o
      {
        if o == nodes[|nodes| - 1].offset {
          assert nodes[|nodes| - 1].offset == o;
        } else {
          assert o in LevelOf(front);
          var i :| 0 <= i < |front| && front[i].offset == o;
          assert nodes[i].offset == o;
        }
      }
      forall i | 0 <= i < |nodes|
        ensures At(LevelOf(nodes), nodes[i].offset) == NodeOf(nodes[i])
      {
        if i < |front| {
          assert nodes[i] == front[i];
        }
      }
    }
  }

  lemma LevelOfPlaced(nodes: seq<PathElement>, width: nat, o: nat)
    requires PlacedElements(nodes, width) && DistinctOffsets(nodes)
    ensures Placed(At(LevelOf(nodes), o), o, width)
  {
    LevelOfContents(nodes);
    if o in LevelOf(nodes) {
      var i :| 0 <= i < |nodes| && nodes[i].offset == o;
      assert PlacedElement(nodes[i], width);
    }
  }

  lemma SuppliedWellPlaced(path: MerklePath, count: nat, depth: nat)
    requires |path.levels| <= depth + 1 && WellFormedPath(path, count)
    ensures WellPlaced(SuppliedLevels(path, depth), count)
  {
    forall level: nat, o: nat | level <= depth
      ensures Placed(At(SuppliedLevels(path, depth)[level], o), o, Width(count, level))
    {
      if level < |path.levels| {
        LevelOfPlaced(path.levels[level], Width(count, level), o);
      }
    }
  }

  // Small checks

  method ValidateProofNodePlacement(e: PathElement, duplicate: bool, width: nat) returns (ok: bool)
    requires e.PathElement? && duplicate == IsDuplicate(e)
    ensures ok <==> PlacedElement(e, width)
  {
    if duplicate {
      if e.hash.Some? || width <= 1 || width % 2 == 0 || e.offset != width {
        return false;
      }
      return true;
    }
    if e.hash.None? || e.offset >= width {
      return false;
    }
    return true;
  }

  ghost predicate Sorted(offsets: seq<nat>) {
    forall i, j :: 0 <= i < j < |offsets| ==> offsets[i] <= offsets[j]
  }

  /** slices.BinarySearchFunc over bases shifted to a level, for the sibling of a supplied offset. */
  method LegalProofAncestor(offset: nat, level: nat, baseOffsets: seq<nat>) returns (legal: bool)
    requires Sorted(baseOffsets)
    ensures legal <==> exists b :: b in baseOffsets && Shift(b, level) == Sibling(offset)
  {
    var target := Sibling(offset);
    var i, j := 0, |baseOffsets|;
    while i < j
      invariant 0 <= i <= j <= |baseOffsets|
      invariant forall k :: 0 <= k < i ==> Shift(baseOffsets[k], level) < target
      invariant forall k :: j <= k < |baseOffsets| ==> Shift(baseOffsets[k], level) >= target
    {
      var h := (i + j) / 2;
      if Shift(baseOffsets[h], level) < target {
        forall k | 0 <= k < h
          ensures Shift(baseOffsets[k], level) < target
        {
          ShiftMonotone(baseOffsets[k], baseOffsets[h], level);
        }
        i := h + 1;
      } else {
        forall k | h < k < |baseOffsets|
          ensures Shift(baseOffsets[k], level) >= target
        {
          ShiftMonotone(baseOffsets[h], baseOffsets[k], level);
        }
        j := h;
      }
    }
    legal := i < |baseOffsets| && Shift(baseOffsets[i], level) == target;
    if i < |baseOffsets| && !legal {
      forall k | i <= k < |baseOffsets|
        ensures Shift(baseOffsets[k], level) != target
      {
        ShiftMonotone(baseOffsets[i], baseOffsets[k], level);
      }
    }
  }

  /** Stands for slices.Sort. */
  method SortOffsets(offsets: seq<nat>) returns (sorted: seq<nat>)
    ensures Sorted(sorted)
    ensures forall o :: o in sorted <==> o in offsets
  {
    sorted := [];
    for n := 0 to |offsets|
      invariant Sorted(sorted)
      invariant forall o :: o in sorted <==> o in offsets[..n]
    {
      var i := 0;
      while i < |sorted| && sorted[i] < offsets[n]
        invariant 0 <= i <= |sorted|
        invariant forall k :: 0 <= k < i ==> sorted[k] < offsets[n]
      {
        i := i + 1;
      }
      ghost var before := sorted;
      sorted := sorted[..i] + [offsets[n]] + sorted[i..];
      assert before == before[..i] + before[i..];
      assert offsets[..n + 1] == offsets[..n] + [offsets[n]];
    }
    assert offsets[..|offsets|] == offsets;
  }

  // Indexing the supplied nodes

  ghost predicate ListsBases(baseOffsets: seq<nat>, base: Level) {
    forall b: nat :: b in baseOffsets <==> At(base, b).Hashed?
  }

  /** One node is checked and entered into its level; a base hash is remembered. */
  method IndexProofNode(levels: array<Level>, baseOffsets: seq<nat>, e: PathElement, level: nat, width: nat)
    returns (ok: bool, bases: seq<nat>)
    requires level < levels.Length
    requires level > 0 ==> Sorted(baseOffsets) && ListsBases(baseOffsets, levels[0])
    requires level == 0 ==> ListsBases(baseOffsets, levels[0])
    modifies levels
    ensures ok <==> && PlacedElement(e, width)
                    && (level > 0 ==> SiblingOfAncestor([old(levels[0])], level, e.offset))
                    && e.offset !in old(levels[level])
    ensures ok ==> levels[level] == old(levels[level])[e.offset := NodeOf(e)]
    ensures !ok ==> levels[..] == old(levels[..])
    ensures forall k :: 0 <= k < levels.Length && k != level ==> levels[k] == old(levels[k])
    ensures level > 0 ==> bases == baseOffsets
    ensures ok ==> ListsBases(bases, levels[0])
  {
    bases := baseOffsets;
    if e.NilElement? {
      return false, bases;
    }
    var duplicate := e.duplicate.Some? && e.duplicate.value;
    var placed := ValidateProofNodePlacement(e, duplicate, width);
    if !placed {
      return false, bases;
    }
    if level == 0 {
      if !duplicate {
        bases := bases + [e.offset];
      }
    } else {
      var legal := LegalProofAncestor(e.offset, level, bases);
      assert legal <==> SiblingOfAncestor([levels[0]], level, e.offset) by {
        AncestorsFromBases(bases, levels[0], level, e.offset);
      }
      if !legal {
        return false, bases;
      }
    }
    if e.offset in levels[level] {
      return false, bases;
    }
    levels[level] := levels[level][e.offset := NodeOf(e)];
    return true, bases;
  }

  lemma AncestorsFromBases(bases: seq<nat>, base: Level, level: nat, offset: nat)
    requires ListsBases(bases, base)
    ensures (exists b :: b in bases && Shift(b, level) == Sibling(offset)) <==> SiblingOfAncestor([base], level, offset)
  {
    if exists b :: b in bases && Shift(b, level) == Sibling(offset) {
      var b :| b in bases && Shift(b, level) == Sibling(offset);
      assert IsBase([base], b);
    }
    if SiblingOfAncestor([base], level, offset) {
      var b :| IsBase([base], b) && Shift(b, level) == Sibling(offset);
      assert b in bases;
    }
  }

  /** What indexing checks of one level. */
  ghost predicate IndexableLevel(base: Level, level: nat, nodes: seq<PathElement>, width: nat) {
    && PlacedElements(nodes, width)
    && DistinctOffsets(nodes)
    && (level > 0 ==> LegalElements(base, level, nodes))
  }

  /** The inner loop of indexProofNodes. */
  method IndexProofLevel(levels: array<Level>, baseOffsets: seq<nat>, nodes: seq<PathElement>, level: nat, width: nat)
    returns (ok: bool, bases: seq<nat>)
    requires level < levels.Length && levels[level] == map[]
    requires level > 0 ==> Sorted(baseOffsets) && ListsBases(baseOffsets, levels[0])
    requires level == 0 ==> baseOffsets == []
    modifies levels
    ensures ok <==> IndexableLevel(old(levels[0]), level, nodes, width)
    ensures ok ==> levels[level] == LevelOf(nodes)
    ensures forall k :: 0 <= k < levels.Length && k != level ==> levels[k] == old(levels[k])
    ensures ok ==> ListsBases(bases, levels[0])
    ensures level > 0 ==> bases == baseOffsets
  {
    hide HalfUp, Shift, Sibling, Width;
    bases := baseOffsets;
    var i := 0;
    while i < |nodes|
      invariant 0 <= i <= |nodes|
      invariant IndexableLevel(old(levels[0]), level, nodes[..i], width)
      invariant levels[level] == LevelOf(nodes[..i])
      invariant forall k :: 0 <= k < levels.Length && k != level ==> levels[k] == old(levels[k])
      invariant ListsBases(bases, levels[0])
      invariant level > 0 ==> bases == baseOffsets
    {
      LevelOfContents(nodes[..i]);
      ok, bases := IndexProofNode(levels, bases, nodes[i], level, width);
      if !ok {
        if nodes[i].PathElement? && nodes[i].offset in LevelOf(nodes[..i]) {
          var j :| 0 <= j < |nodes[..i]| && nodes[..i][j].offset == nodes[i].offset;
          assert nodes[j].offset == nodes[i].offset;
        }
        return;
      }
      assert nodes[..i + 1][..i] == nodes[..i];
      assert nodes[..i + 1] == nodes[..i] + [nodes[i]];
      i := i + 1;
    }
    assert nodes[..|nodes|] == nodes;
    ok := true;
  }

  ghost predicate IndexablePath(path: MerklePath, count: nat, base: Level) {
    forall level :: 0 <= level < |path.levels| ==>
      IndexableLevel(base, level, path.levels[level], Width(count, level))
  }

  /** The outcome of indexing: the maps hold exactly the supplied levels. */
  ghost predicate Indexed(levels: seq<Level>, path: MerklePath, count: nat, upTo: nat)
    requires upTo <= |path.levels| <= |levels|
  {
    && (forall k :: 0 <= k < upTo ==>
          IndexableLevel(levels[0], k, path.levels[k], Width(count, k)) && levels[k] == LevelOf(path.levels[k]))
    && (forall k :: upTo <= k < |levels| ==> levels[k] == map[])
  }

  ghost predicate Indexable(path: MerklePath, count: nat)
    requires |path.levels| > 0
  {
    WellFormedPath(path, count) && IndexablePath(path, count, LevelOf(path.levels[0]))
  }

  lemma NotIndexable(path: MerklePath, count: nat, level: nat, base: Level)
    requires level < |path.levels|
    requires !IndexableLevel(base, level, path.levels[level], Width(count, level))
    requires level > 0 && WellFormedPath(path, count) ==> base == LevelOf(path.levels[0])
    ensures !Indexable(path, count)
  {
    if level > 0 && WellFormedPath(path, count) {
      assert !IndexableLevel(LevelOf(path.levels[0]), level, path.levels[level], Width(count, level));
    }
  }

  lemma IndexedIsSupplied(levels: seq<Level>, path: MerklePath, count: nat, depth: nat)
    requires 1 <= |path.levels| <= depth && |levels| == depth + 1
    requires Indexed(levels, path, count, |path.levels|)
    ensures Indexable(path, count)
    ensures levels == SuppliedLevels(path, depth)
  {
  }

  /** Fills one map per level and collects the base offsets in order. */
  method IndexProofNodes(path: MerklePath, count: nat, depth: nat)
    returns (ok: bool, levels: array<Level>, baseOffsets: seq<nat>)
    requires 1 <= |path.levels| <= depth
    ensures fresh(levels)
    ensures ok <==> Indexable(path, count)
    ensures ok ==> levels[..] == SuppliedLevels(path, depth)
    ensures ok ==> ListsBases(baseOffsets, levels[0])
  {
    levels := new Level[depth + 1](i => map[]);
    var width := count;
    baseOffsets := [];
    var level := 0;
    while level < |path.levels|
      invariant 0 <= level <= |path.levels|
      invariant width == Width(count, level)
      invariant levels.Length == depth + 1
      invariant Indexed(levels[..], path, count, level)
      invariant if level == 0 then baseOffsets == [] else Sorted(baseOffsets) && ListsBases(baseOffsets, levels[0])
    {
      ghost var base := levels[0];
      ok, baseOffsets := IndexProofLevel(levels, baseOffsets, path.levels[level], level, width);
      if !ok {
        NotIndexable(path, count, level, base);
        return;
      }
      if level == 0 {
        baseOffsets := SortOffsets(baseOffsets);
      }
      width := width / 2 + width % 2;
      level := level + 1;
    }
    IndexedIsSupplied(levels[..], path, count, depth);
    ok := true;
  }

  // Deriving parents

  /** The node that deriving a level leaves at an offset. */
  function Overlaid(d: Digest, below: Level, supplied: Level, a: nat): Node {
    var parent := ParentOf(d, At(below, 2 * a), At(below, 2 * a + 1));
    if parent.Hashed? then parent else At(supplied, a)
  }

  /** Level `above` after the parents of level `below` are entered into it. */
  ghost predicate DerivedFrom(d: Digest, below: Level, supplied: Level, above: Level) {
    forall a: nat :: At(above, a) == Overlaid(d, below, supplied, a)
  }

  ghost predicate DerivesCompatibly(d: Digest, below: Level, supplied: Level) {
    forall a: nat :: a in supplied && ParentOf(d, At(below, 2 * a), At(below, 2 * a + 1)).Hashed? ==>
      supplied[a] == ParentOf(d, At(below, 2 * a), At(below, 2 * a + 1))
  }

  /** Visits the nodes of a level in any order and enters each parent both of whose children are known. */
  method DeriveProofLevel(d: Digest, levels: array<Level>, level: nat) returns (ok: bool)
    requires level + 1 < levels.Length
    modifies levels
    ensures ok <==> DerivesCompatibly(d, old(levels[level]), old(levels[level + 1]))
    ensures ok ==> DerivedFrom(d, old(levels[level]), old(levels[level + 1]), levels[level + 1])
    ensures forall k :: 0 <= k < levels.Length && k != level + 1 ==> levels[k] == old(levels[k])
  {
    ghost var below, supplied := levels[level], levels[level + 1];
    var todo := levels[level].Keys;
    while todo != {}
      invariant todo <= below.Keys
      invariant forall k :: 0 <= k < levels.Length && k != level + 1 ==> levels[k] == old(levels[k])
      invariant forall a: nat :: 2 * a in todo || 2 * a !in below ==> At(levels[level + 1], a) == At(supplied, a)
      invariant forall a: nat :: 2 * a in below && 2 * a !in todo ==>
        var parent := ParentOf(d, At(below, 2 * a), At(below, 2 * a + 1));
        && At(levels[level + 1], a) == (if parent.Hashed? then parent else At(supplied, a))
        && (parent.Hashed? && a in supplied ==> supplied[a] == parent)
      decreases todo
    {
      var offset: nat :| offset in todo;
      todo := todo - {offset};
      var left := levels[level][offset];
      if offset % 2 == 0 && left.Hashed? && offset + 1 in levels[level] {
        var right := levels[level][offset + 1];
        var parent := ParentOf(d, left, right);
        assert 2 * (offset / 2) == offset;
        if offset / 2 in levels[level + 1] && levels[level + 1][offset / 2] != parent {
          return false;
        }
        levels[level + 1] := levels[level + 1][offset / 2 := parent];
      }
    }
    ok := true;
  }
  /** The known nodes up to a level, and the supplied ones above it. */
  ghost predicate KnownUpTo(d: Digest, levels: seq<Level>, s: seq<Level>, level: nat) {
    && |levels| == |s|
    && (forall k: nat, o: nat :: k <= level && k < |s| ==> At(levels[k], o) == Known(d, s, k, o))
    && (forall k :: level < k < |s| ==> levels[k] == s[k])
  }

  lemma OverlaidIsKnown(d: Digest, below: Level, s: seq<Level>, level: nat, o: nat)
    requires 1 <= level < |s|
    requires At(below, 2 * o) == Known(d, s, level - 1, 2 * o)
    requires At(below, 2 * o + 1) == Known(d, s, level - 1, 2 * o + 1)
    ensures Overlaid(d, below, s[level], o) == Known(d, s, level, o)
  {
  }

  lemma DerivedIsKnown(d: Digest, before: seq<Level>, after: seq<Level>, s: seq<Level>, level: nat)
    requires 1 <= level < |s| && KnownUpTo(d, before, s, level - 1) && |after| == |s|
    requires DerivedFrom(d, before[level - 1], before[level], after[level])
    requires forall k :: 0 <= k < |s| && k != level ==> after[k] == before[k]
    ensures KnownUpTo(d, after, s, level)
  {
    forall k: nat, o: nat | k <= level && k < |s|
      ensures At(after[k], o) == Known(d, s, k, o)
    {
      if k < level {
        assert At(before[k], o) == Known(d, s, k, o);
      } else {
        assert At(before[level - 1], 2 * o) == Known(d, s, level - 1, 2 * o);
        assert At(before[level - 1], 2 * o + 1) == Known(d, s, level - 1, 2 * o + 1);
        OverlaidIsKnown(d, before[level - 1], s, level, o);
        assert At(after[level], o) == Overlaid(d, before[level - 1], before[level], o);
      }
    }
  }

  ghost predicate CompatibleLevel(d: Digest, s: seq<Level>, level: nat)
    requires level < |s|
  {
    forall o: nat :: CompatibleAt(d, s, level, o)
  }

  lemma DerivesCompatiblyIsCompatible(d: Digest, below: Level, supplied: Level, s: seq<Level>, level: nat)
    requires 1 <= level < |s| && supplied == s[level]
    requires forall a: nat :: At(below, a) == Known(d, s, level - 1, a)
    ensures DerivesCompatibly(d, below, supplied) <==> CompatibleLevel(d, s, level)
  {
    forall a: nat
      ensures CompatibleAt(d, s, level, a) <==>
              (a in supplied && ParentOf(d, At(below, 2 * a), At(below, 2 * a + 1)).Hashed? ==>
                 supplied[a] == ParentOf(d, At(below, 2 * a), At(below, 2 * a + 1)))
    {
      assert At(below, 2 * a) == Known(d, s, level - 1, 2 * a);
      assert At(below, 2 * a + 1) == Known(d, s, level - 1, 2 * a + 1);
    }
  }

  method DeriveProofParents(d: Digest, levels: array<Level>, depth: nat, ghost s: seq<Level>) returns (ok: bool)
    requires levels.Length == depth + 1 && levels[..] == s
    modifies levels
    ensures ok <==> Compatible(d, s)
    ensures ok ==> KnownUpTo(d, levels[..], s, depth)
  {
    var level := 0;
    while level < depth
      invariant 0 <= level <= depth
      invariant KnownUpTo(d, levels[..], s, level)
      invariant forall k :: 0 <= k <= level ==> CompatibleLevel(d, s, k)
    {
      ghost var before := levels[..];
      DerivesCompatiblyIsCompatible(d, before[level], before[level + 1], s, level + 1);
      ok := DeriveProofLevel(d, levels, level);
      if !ok {
        return;
      }
      DerivedIsKnown(d, before, levels[..], s, level + 1);
      level := level + 1;
    }
    ok := true;
    forall k: nat, o: nat | k < |s|
      ensures CompatibleAt(d, s, k, o)
    {
      assert CompatibleLevel(d, s, k);
    }
  }

  // The remaining checks

  /** The leaf must be the requested txid; a one-transaction block is its own root. */
  method CheckProofLeaf(levels: array<Level>, path: MerklePath, txid: Hash, position: nat, header: CanonicalHeader)
    returns (ok: bool)
    requires levels.Length > 0 && |path.levels| > 0
    ensures ok <==> && At(levels[0], position) == Hashed(txid)
                    && (header.transactionCount == 1 ==>
                          |path.levels| == 1 && |path.levels[0]| == 1 && position == 0 && txid == header.merkleRoot)
  {
    if position !in levels[0] || !levels[0][position].Hashed? || levels[0][position].hash != txid {
      return false;
    }
    if header.transactionCount != 1 {
      return true;
    }
    return |path.levels| == 1 && |path.levels[0]| == 1 && position == 0 && txid == header.merkleRoot;
  }

  method ConnectedProofBase(d: Digest, levels: array<Level>, offset: nat, depth: nat, ghost s: seq<Level>)
    returns (ok: bool)
    requires levels.Length == depth + 1 && KnownUpTo(d, levels[..], s, depth)
    ensures ok <==> Connected(d, s, offset)
  {
    var level := 0;
    while level < depth
      invariant 0 <= level <= depth
      invariant forall k :: 0 <= k < level ==> ConnectedAt(d, s, offset, k)
    {
      var sibling, parent := Sibling(Shift(offset, level)), Shift(offset, level + 1);
      assert At(levels[..][level], sibling) == Known(d, s, level, sibling);
      assert At(levels[..][level + 1], parent) == Known(d, s, level + 1, parent);
      if sibling !in levels[level] || parent !in levels[level + 1] || !levels[level + 1][parent].Hashed? {
        assert !ConnectedAt(d, s, offset, level);
        return false;
      }
      level := level + 1;
    }
    ok := true;
  }

  method WalkProofBaseOffsets(d: Digest, levels: array<Level>, baseOffsets: seq<nat>, depth: nat, ghost s: seq<Level>)
    returns (ok: bool)
    requires levels.Length == depth + 1 && KnownUpTo(d, levels[..], s, depth)
    ensures ok <==> forall b :: b in baseOffsets ==> Connected(d, s, b)
  {
    for i := 0 to |baseOffsets|
      invariant forall k :: 0 <= k < i ==> Connected(d, s, baseOffsets[k])
    {
      ok := ConnectedProofBase(d, levels, baseOffsets[i], depth, s);
      if !ok {
        return;
      }
    }
    ok := true;
  }

  lemma IndexableIsLegal(path: MerklePath, count: nat, depth: nat)
    requires 1 <= |path.levels| <= depth && WellFormedPath(path, count)
    ensures Indexable(path, count) <==> Legal(SuppliedLevels(path, depth))
  {
    var s, base := SuppliedLevels(path, depth), LevelOf(path.levels[0]);
    forall level: nat, o: nat
      ensures SiblingOfAncestor(s, level, o) <==> SiblingOfAncestor([base], level, o)
    {
      assert forall b :: IsBase(s, b) <==> IsBase([base], b);
    }
    forall level | 0 <= level < |path.levels|
      ensures (forall i :: 0 <= i < |path.levels[level]| ==>
                 !At(s[level], path.levels[level][i].offset).Absent?)
      ensures (forall o :: !At(s[level], o).Absent? ==>
                 exists i :: 0 <= i < |path.levels[level]| && path.levels[level][i].offset == o)
    {
      LevelOfContents(path.levels[level]);
    }
    if Legal(s) {
      forall level | 0 <= level < |path.levels|
        ensures IndexableLevel(base, level, path.levels[level], Width(count, level))
      {
        if level > 0 {
          forall i | 0 <= i < |path.levels[level]|
            ensures SiblingOfAncestor([base], level, path.levels[level][i].offset)
          {
            assert SiblingOfAncestor(s, level, path.levels[level][i].offset);
          }
        }
      }
    }
    if Indexable(path, count) {
      forall level: nat, o: nat | 1 <= level < |s| && !At(s[level], o).Absent?
        ensures SiblingOfAncestor(s, level, o)
      {
        var i :| 0 <= i < |path.levels[level]| && path.levels[level][i].offset == o;
        assert IndexableLevel(base, level, path.levels[level], Width(count, level));
      }
    }
  }

  /** Indexes, derives and walks; the answer is exactly the acceptance condition. */
  method ValidateBASMProof(d: Digest, path: MerklePath, txid: Hash, position: nat, header: CanonicalHeader)
    returns (ok: bool)
    ensures ok <==> Accepts(d, path, txid, position, header)
    ensures ok ==> path.blockHeight == header.height && 1 <= |path.levels| <= MerkleProofDepth(header.transactionCount)
  {
    var count := header.transactionCount;
    var depth := MerkleProofDepth(count);
    if path.blockHeight != header.height || |path.levels| == 0 || |path.levels| > depth {
      return false;
    }
    var levels, baseOffsets;
    ok, levels, baseOffsets := IndexProofNodes(path, count, depth);
    if !ok {
      if WellFormedPath(path, count) {
        IndexableIsLegal(path, count, depth);
        if count == 1 {
          OneLevelIsIndexable(path, count);
        }
      }
      return;
    }
    ghost var s := levels[..];
    IndexableIsLegal(path, count, depth);
    SuppliedWellPlaced(path, count, depth);
    ok := CheckProofLeaf(levels, path, txid, position, header);
    if !ok {
      return;
    }
    if count == 1 {
      return;
    }
    assert Placed(At(s[0], position), position, Width(count, 0));
    ProofDepthIsLeast(count, depth);
    ok := DeriveProofParents(d, levels, depth, s);
    if !ok {
      return;
    }
    assert At(levels[..][depth], 0) == Known(d, s, depth, 0);
    if 0 !in levels[depth] || !levels[depth][0].Hashed? || levels[depth][0].hash != header.merkleRoot {
      return false;
    }
    ok := WalkProofBaseOffsets(d, levels, baseOffsets, depth, s);
  }

  lemma OneLevelIsIndexable(path: MerklePath, count: nat)
    requires |path.levels| == 1 && WellFormedPath(path, count)
    ensures Indexable(path, count)
  {
    assert PlacedElements(path.levels[0], Width(count, 0));
  }
}
