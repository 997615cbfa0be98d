/** The level-wise union of valid sparse trees under one root is again one, or two of them collide. */
module ProofUnion {
  import opened Bytes
  import opened Merkle
  import opened ProofLevels

  function UnionLevels(a: seq<Level>, b: seq<Level>): (r: seq<Level>)
    requires |a| == |b|
    ensures |r| == |a|
    ensures forall level :: 0 <= level < |a| ==> r[level] == a[level] + b[level]
  {
    seq(|a|, level requires 0 <= level < |a| && |a| == |b| => a[level] + b[level])
  }

  /** The first of two nodes that is there. */
  function Either(a: Node, b: Node): Node {
    if a.Absent? then b else a
  }

  /** A node known to s is the one known to a, or else to b. */
  ghost predicate KnowsEither(d: Digest, a: View, b: View, s: seq<Level>, level: nat, o: nat)
    requires level < |s| == |a.supplied| == |b.supplied|
  {
    Known(d, s, level, o) == Either(Known(d, a.supplied, level, o), Known(d, b.supplied, level, o))
  }

  ghost predicate Compatibles(d: Digest, a: View, b: View) {
    && Valid(d, a) && Valid(d, b) && SameTree(a, b)
    && !LevelsCollision(d, a.supplied, b.supplied)
  }

  lemma LeftHasPair(d: Digest, v: View, level: nat, p: nat)
    requires Valid(d, v) && level + 1 < |v.supplied| && !Known(d, v.supplied, level, 2 * p).Absent?
    ensures HasPair(d, v.supplied, level, p)
  {
    KnownPlaced(d, v.supplied, v.count, level, 2 * p);
    KnownIsLinked(d, v.supplied, level, 2 * p);
    LinkedHasPair(d, v, level, 2 * p);
    assert 2 * p / 2 == p;
  }

  lemma KnownFromPair(d: Digest, s: seq<Level>, level: nat, p: nat)
    requires level + 1 < |s|
    ensures HasPair(d, s, level, p) ==> Known(d, s, level + 1, p) == Hashed(d(PairIn(d, s, level, p)))
    ensures !HasPair(d, s, level, p) ==> Known(d, s, level + 1, p) == At(s[level + 1], p)
  {
  }

  /** A union derives from a pair of one of its parts whatever it derives. */
  lemma UnionPair(d: Digest, a: View, b: View, s: seq<Level>, level: nat, p: nat)
    requires Compatibles(d, a, b) && level + 1 < |a.supplied| && |s| == |a.supplied|
    requires KnowsEither(d, a, b, s, level, 2 * p) && KnowsEither(d, a, b, s, level, 2 * p + 1)
    ensures HasPair(d, s, level, p) <==> HasPair(d, a.supplied, level, p) || HasPair(d, b.supplied, level, p)
    ensures HasPair(d, a.supplied, level, p) ==> PairIn(d, s, level, p) == PairIn(d, a.supplied, level, p)
    ensures HasPair(d, b.supplied, level, p) ==> PairIn(d, s, level, p) == PairIn(d, b.supplied, level, p)
  {
    if !Known(d, a.supplied, level, 2 * p).Absent? {
      LeftHasPair(d, a, level, p);
    }
    if !Known(d, b.supplied, level, 2 * p).Absent? {
      LeftHasPair(d, b, level, p);
    }
    BothKnown(d, a, b, level, 2 * p);
    BothKnown(d, a, b, level, 2 * p + 1);
  }

  lemma BothKnown(d: Digest, a: View, b: View, level: nat, o: nat)
    requires Compatibles(d, a, b) && level < |a.supplied|
    ensures Known(d, a.supplied, level, o).Absent? || Known(d, b.supplied, level, o).Absent? ||
            Known(d, a.supplied, level, o) == Known(d, b.supplied, level, o)
  {
    if !Known(d, a.supplied, level, o).Absent? && !Known(d, b.supplied, level, o).Absent? {
      KnownAgree(d, a, b, level, o);
    }
  }

  lemma UnionStep(d: Digest, a: View, b: View, s: seq<Level>, level: nat, o: nat)
    requires Compatibles(d, a, b) && level + 1 < |a.supplied| && s == UnionLevels(a.supplied, b.supplied)
    requires KnowsEither(d, a, b, s, level, 2 * o) && KnowsEither(d, a, b, s, level, 2 * o + 1)
    ensures KnowsEither(d, a, b, s, level + 1, o)
  {
    hide HalfUp, Shift, Sibling, Width;
    UnionPair(d, a, b, s, level, o);
    KnownFromPair(d, s, level, o);
    KnownFromPair(d, a.supplied, level, o);
    KnownFromPair(d, b.supplied, level, o);
    BothKnown(d, a, b, level + 1, o);
  }

  lemma UnionLeaf(d: Digest, a: View, b: View, o: nat)
    requires Compatibles(d, a, b)
    ensures KnowsEither(d, a, b, UnionLevels(a.supplied, b.supplied), 0, o)
  {
    BothKnown(d, a, b, 0, o);
  }

  /** A union knows what its parts know. */
  lemma {:induction false} UnionKnown(d: Digest, a: View, b: View, level: nat, o: nat)
    requires Compatibles(d, a, b) && level < |a.supplied|
    ensures KnowsEither(d, a, b, UnionLevels(a.supplied, b.supplied), level, o)
    decreases level
  {
    hide HalfUp, Shift, Sibling, Width;
    if level == 0 {
      UnionLeaf(d, a, b, o);
    } else {
      var below := level - 1;
      UnionKnown(d, a, b, below, 2 * o);
      UnionKnown(d, a, b, below, 2 * o + 1);
      UnionStep(d, a, b, UnionLevels(a.supplied, b.supplied), below, o);
    }
  }

  lemma UnionHasPair(d: Digest, a: View, b: View, level: nat, p: nat)
    requires Compatibles(d, a, b) && level < |a.supplied|
    requires HasPair(d, UnionLevels(a.supplied, b.supplied), level, p)
    ensures var pair := PairIn(d, UnionLevels(a.supplied, b.supplied), level, p);
            || (HasPair(d, a.supplied, level, p) && pair == PairIn(d, a.supplied, level, p))
            || (HasPair(d, b.supplied, level, p) && pair == PairIn(d, b.supplied, level, p))
  {
    hide HalfUp, Shift, Sibling, Width;
    var s := UnionLevels(a.supplied, b.supplied);
    UnionKnown(d, a, b, level, 2 * p);
    UnionKnown(d, a, b, level, 2 * p + 1);
    if level + 1 < |a.supplied| {
      UnionPair(d, a, b, s, level, p);
    } else {
      TopIsOnlyZero(d, a, 2 * p + 1);
      TopIsOnlyZero(d, b, 2 * p + 1);
    }
  }

  lemma UnionBase(a: View, b: View, o: nat)
    requires |a.supplied| == |b.supplied| > 0 && WellPlaced(a.supplied, a.count) && WellPlaced(b.supplied, a.count)
    ensures IsBase(UnionLevels(a.supplied, b.supplied), o) <==> IsBase(a.supplied, o) || IsBase(b.supplied, o)
  {
    assert Placed(At(a.supplied[0], o), o, Width(a.count, 0));
    assert Placed(At(b.supplied[0], o), o, Width(a.count, 0));
  }

  lemma UnionIsLegal(d: Digest, a: View, b: View)
    requires Compatibles(d, a, b)
    ensures Legal(UnionLevels(a.supplied, b.supplied))
  {
    var s := UnionLevels(a.supplied, b.supplied);
    forall level: nat, o: nat | 1 <= level < |s| && !At(s[level], o).Absent?
      ensures SiblingOfAncestor(s, level, o)
    {
      if !At(a.supplied[level], o).Absent? {
        assert SiblingOfAncestor(a.supplied, level, o);
        var base :| IsBase(a.supplied, base) && Shift(base, level) == Sibling(o);
        UnionBase(a, b, base);
      } else {
        assert SiblingOfAncestor(b.supplied, level, o);
        var base :| IsBase(b.supplied, base) && Shift(base, level) == Sibling(o);
        UnionBase(a, b, base);
      }
    }
  }

  lemma UnionIsCompatible(d: Digest, a: View, b: View, level: nat, o: nat)
    requires Compatibles(d, a, b) && level < |a.supplied|
    ensures CompatibleAt(d, UnionLevels(a.supplied, b.supplied), level, o)
    ensures Placed(At(UnionLevels(a.supplied, b.supplied)[level], o), o, Width(a.count, level))
  {
    UnionKnown(d, a, b, level, o);
    BothKnown(d, a, b, level, o);
    assert CompatibleAt(d, a.supplied, level, o) && CompatibleAt(d, b.supplied, level, o);
    assert Placed(At(a.supplied[level], o), o, Width(a.count, level));
    assert Placed(At(b.supplied[level], o), o, Width(a.count, level));
  }

  lemma UnionIsConnected(d: Digest, a: View, b: View, base: nat, level: nat)
    requires Compatibles(d, a, b) && level + 1 < |a.supplied|
    requires ConnectedAt(d, a.supplied, base, level) || ConnectedAt(d, b.supplied, base, level)
    ensures ConnectedAt(d, UnionLevels(a.supplied, b.supplied), base, level)
  {
    UnionKnown(d, a, b, level, Sibling(Shift(base, level)));
    UnionKnown(d, a, b, level + 1, Shift(base, level + 1));
    BothKnown(d, a, b, level + 1, Shift(base, level + 1));
  }

  lemma UnionBaseIsConnected(d: Digest, a: View, b: View, base: nat)
    requires Compatibles(d, a, b) && IsBase(UnionLevels(a.supplied, b.supplied), base)
    ensures Connected(d, UnionLevels(a.supplied, b.supplied), base)
  {
    var s := UnionLevels(a.supplied, b.supplied);
    UnionBase(a, b, base);
    forall level | 0 <= level < |s| - 1
      ensures ConnectedAt(d, s, base, level)
    {
      if IsBase(a.supplied, base) {
        assert Connected(d, a.supplied, base);
        assert ConnectedAt(d, a.supplied, base, level);
      } else {
        assert Connected(d, b.supplied, base);
        assert ConnectedAt(d, b.supplied, base, level);
      }
      UnionIsConnected(d, a, b, base, level);
    }
  }

  lemma UnionIsValid(d: Digest, a: View, b: View)
    requires Compatibles(d, a, b)
    ensures Valid(d, View(a.count, a.root, UnionLevels(a.supplied, b.supplied)))
  {
    var s := UnionLevels(a.supplied, b.supplied);
    UnionIsLegal(d, a, b);
    assert Compatible(d, s) && WellPlaced(s, a.count) by {
      forall level: nat, o: nat | level < |s|
        ensures CompatibleAt(d, s, level, o) && Placed(At(s[level], o), o, Width(a.count, level))
      {
        UnionIsCompatible(d, a, b, level, o);
      }
    }
    assert Known(d, s, |s| - 1, 0) == Hashed(a.root) by {
      UnionKnown(d, a, b, |s| - 1, 0);
    }
    forall base | IsBase(s, base)
      ensures Connected(d, s, base)
    {
      UnionBaseIsConnected(d, a, b, base);
    }
  }

  // Unions of many

  ghost predicate SameShape(parts: seq<seq<Level>>) {
    forall i, j :: 0 <= i < j < |parts| ==> |parts[i]| == |parts[j]|
  }

  function UnionAll(parts: seq<seq<Level>>): (r: seq<Level>)
    requires |parts| > 0 && SameShape(parts)
    ensures |r| == |parts[0]|
  {
    if |parts| == 1 then parts[0]
    else
      var front := parts[..|parts| - 1];
      assert SameShape(front) && front[0] == parts[0];
      UnionLevels(UnionAll(front), parts[|parts| - 1])
  }

  ghost predicate AnyCollision(d: Digest, parts: seq<seq<Level>>) {
    exists i, j :: 0 <= i < j < |parts| && LevelsCollision(d, parts[i], parts[j])
  }

  ghost predicate AllValid(d: Digest, count: nat, root: Hash, parts: seq<seq<Level>>) {
    forall i :: 0 <= i < |parts| ==> Valid(d, View(count, root, parts[i]))
  }

  /** Each pair of a union is the pair of one of its parts. */
  ghost predicate PairsFromParts(d: Digest, s: seq<Level>, parts: seq<seq<Level>>) {
    forall level: nat, p: nat :: level < |s| && HasPair(d, s, level, p) ==> PairFromParts(d, s, parts, level, p)
  }

  ghost predicate PairFromParts(d: Digest, s: seq<Level>, parts: seq<seq<Level>>, level: nat, p: nat)
    requires level < |s| && HasPair(d, s, level, p)
  {
    exists i :: 0 <= i < |parts| && level < |parts[i]| && HasPair(d, parts[i], level, p) &&
                PairIn(d, parts[i], level, p) == PairIn(d, s, level, p)
  }

  lemma UnionCollides(d: Digest, s: seq<Level>, parts: seq<seq<Level>>)
    requires |parts| > 1
    requires PairsFromParts(d, s, parts[..|parts| - 1]) && LevelsCollision(d, s, parts[|parts| - 1])
    ensures AnyCollision(d, parts)
  {
    var front, last := parts[..|parts| - 1], parts[|parts| - 1];
    var level: nat, p: nat :| CollisionAt(d, s, last, level, p);
    assert PairFromParts(d, s, front, level, p);
    var i :| 0 <= i < |front| && level < |front[i]| && HasPair(d, front[i], level, p) &&
             PairIn(d, front[i], level, p) == PairIn(d, s, level, p);
    assert CollisionAt(d, front[i], last, level, p);
    assert LevelsCollision(d, parts[i], parts[|parts| - 1]);
  }

  lemma {:induction false} UnionAllIsValid(d: Digest, count: nat, root: Hash, parts: seq<seq<Level>>)
    requires |parts| > 0 && SameShape(parts) && AllValid(d, count, root, parts)
    ensures AnyCollision(d, parts) ||
            (Valid(d, View(count, root, UnionAll(parts))) && PairsFromParts(d, UnionAll(parts), parts))
    decreases |parts|
  {
    var last := parts[|parts| - 1];
    if |parts| == 1 {
      SinglePart(d, parts);
    } else if !AnyCollision(d, parts) {
      var front := parts[..|parts| - 1];
      var s := UnionAll(front);
      FrontCollides(d, parts);
      UnionAllIsValid(d, count, root, front);
      var a, b := View(count, root, s), View(count, root, last);
      if LevelsCollision(d, s, last) {
        UnionCollides(d, s, parts);
      } else {
        UnionIsValid(d, a, b);
        UnionPairs(d, a, b, parts);
      }
    }
  }

  lemma SinglePart(d: Digest, parts: seq<seq<Level>>)
    requires |parts| == 1
    ensures PairsFromParts(d, parts[0], parts)
  {
    forall level: nat, p: nat | level < |parts[0]| && HasPair(d, parts[0], level, p)
      ensures PairFromParts(d, parts[0], parts, level, p)
    {
      assert HasPair(d, parts[0], level, p);
    }
  }

  lemma FrontCollides(d: Digest, parts: seq<seq<Level>>)
    requires |parts| > 1
    ensures AnyCollision(d, parts[..|parts| - 1]) ==> AnyCollision(d, parts)
  {
    var front := parts[..|parts| - 1];
    if AnyCollision(d, front) {
      var i, j :| 0 <= i < j < |front| && LevelsCollision(d, front[i], front[j]);
      assert LevelsCollision(d, parts[i], parts[j]);
    }
  }

  lemma UnionPairs(d: Digest, a: View, b: View, parts: seq<seq<Level>>)
    requires |parts| > 1 && Compatibles(d, a, b)
    requires PairsFromParts(d, a.supplied, parts[..|parts| - 1]) && b.supplied == parts[|parts| - 1]
    ensures PairsFromParts(d, UnionLevels(a.supplied, b.supplied), parts)
  {
    var s, front := UnionLevels(a.supplied, b.supplied), parts[..|parts| - 1];
    forall level: nat, p: nat | level < |s| && HasPair(d, s, level, p)
      ensures PairFromParts(d, s, parts, level, p)
    {
      UnionHasPair(d, a, b, level, p);
      if HasPair(d, a.supplied, level, p) && PairIn(d, s, level, p) == PairIn(d, a.supplied, level, p) {
        assert PairFromParts(d, a.supplied, front, level, p);
        var i :| 0 <= i < |front| && level < |front[i]| && HasPair(d, front[i], level, p) &&
                 PairIn(d, front[i], level, p) == PairIn(d, a.supplied, level, p);
        assert HasPair(d, parts[i], level, p);
      } else {
        assert HasPair(d, parts[|parts| - 1], level, p);
      }
    }
  }

  /** A node of a union is a node of one of its parts, and every node of a part is in the union. */
  lemma {:induction false} UnionAllNodes(parts: seq<seq<Level>>, level: nat, o: nat)
    requires |parts| > 0 && SameShape(parts) && level < |parts[0]|
    ensures forall i :: 0 <= i < |parts| ==> |parts[i]| == |parts[0]|
    ensures !At(UnionAll(parts)[level], o).Absent? ==>
              exists i :: 0 <= i < |parts| && At(parts[i][level], o) == At(UnionAll(parts)[level], o)
    ensures forall i :: 0 <= i < |parts| && !At(parts[i][level], o).Absent? ==> !At(UnionAll(parts)[level], o).Absent?
    decreases |parts|
  {
    if |parts| > 1 {
      var front, last := parts[..|parts| - 1], parts[|parts| - 1];
      UnionAllNodes(front, level, o);
      var s := UnionAll(parts);
      assert forall i :: 0 <= i < |front| ==> front[i] == parts[i];
      assert |last| == |parts[0]|;
      if !At(s[level], o).Absent? {
        if o in last[level] {
          assert At(parts[|parts| - 1][level], o) == At(s[level], o);
        } else {
          var i :| 0 <= i < |front| && At(front[i][level], o) == At(UnionAll(front)[level], o);
          assert At(parts[i][level], o) == At(s[level], o);
        }
      }
    } else {
      assert At(parts[0][level], o) == At(UnionAll(parts)[level], o);
    }
  }
}
