/**
 The sparse tree behind a BUMP: what a set of supplied nodes derives, when it connects to a root,
 and why two sparse trees under one root agree. Nothing here assumes that the hash is injective:
 disagreement always exhibits two different pairs at one place with one parent.
 */
module ProofLevels {
  import opened Bytes
  import opened Merkle

  datatype Node = Absent | Duplicate | Hashed(hash: Hash)

  type StoredNode = n: Node | !n.Absent? witness Duplicate

  /** Nodes of one level by offset. */
  type Level = map<nat, StoredNode>

  /** Nodes supplied at levels 0 to depth of a tree with a known number of leaves and a known root. */
  datatype View = View(count: nat, root: Hash, supplied: seq<Level>)

  function At(level: Level, o: nat): Node {
    if o in level then level[o] else Absent
  }

  function Sibling(offset: nat): nat {
    if offset % 2 == 0 then offset + 1 else offset - 1
  }

  /** offset >> level */
  function Shift(offset: nat, level: nat): nat {
    if level == 0 then offset else Shift(offset, level - 1) / 2
  }

  // Derivation of parents

  predicate IsPair(left: Node, right: Node) {
    left.Hashed? && !right.Absent?
  }

  /** The bytes hashed for a parent; a duplicate marker on the right stands for the left node. */
  function PairOf(left: Node, right: Node): seq<byte>
    requires IsPair(left, right)
  {
    PairBytes(left.hash, if right.Hashed? then right.hash else left.hash)
  }

  function ParentOf(d: Digest, left: Node, right: Node): Node {
    if IsPair(left, right) then Hashed(d(PairOf(left, right))) else Absent
  }

  /** The node derived from two known children, or else the node supplied. */
  function Known(d: Digest, s: seq<Level>, level: nat, o: nat): Node
    requires level < |s|
  {
    if level == 0 then At(s[0], o)
    else
      var parent := ParentOf(d, Known(d, s, level - 1, 2 * o), Known(d, s, level - 1, 2 * o + 1));
      if parent.Hashed? then parent else At(s[level], o)
  }

  predicate HasPair(d: Digest, s: seq<Level>, level: nat, a: nat)
    requires level < |s|
  {
    IsPair(Known(d, s, level, 2 * a), Known(d, s, level, 2 * a + 1))
  }

  function PairIn(d: Digest, s: seq<Level>, level: nat, a: nat): seq<byte>
    requires level < |s| && HasPair(d, s, level, a)
  {
    PairOf(Known(d, s, level, 2 * a), Known(d, s, level, 2 * a + 1))
  }

  // Valid views

  /** A marker only beside the last node of an odd level; a hash only inside the level. */
  predicate Placed(node: Node, o: nat, width: nat) {
    match node
    case Absent => true
    case Duplicate => width > 1 && width % 2 == 1 && o == width
    case Hashed(_) => o < width
  }

  predicate IsBase(s: seq<Level>, b: nat) {
    |s| > 0 && At(s[0], b).Hashed?
  }

  /** An offset on the way from a base to the root, or beside it. */
  ghost predicate Linked(s: seq<Level>, level: nat, o: nat) {
    exists b :: IsBase(s, b) && (o == Shift(b, level) || o == Sibling(Shift(b, level)))
  }

  ghost predicate SiblingOfAncestor(s: seq<Level>, level: nat, o: nat) {
    exists b :: IsBase(s, b) && Shift(b, level) == Sibling(o)
  }

  /** At a level, a base has a known sibling and above it a known hash. */
  predicate ConnectedAt(d: Digest, s: seq<Level>, b: nat, level: nat)
    requires level + 1 < |s|
  {
    && !Known(d, s, level, Sibling(Shift(b, level))).Absent?
    && Known(d, s, level + 1, Shift(b, level + 1)).Hashed?
  }

  predicate Connected(d: Digest, s: seq<Level>, b: nat) {
    forall level | 0 <= level < |s| - 1 :: ConnectedAt(d, s, b, level)
  }

  /** A supplied node does not contradict what is known for its place. */
  predicate CompatibleAt(d: Digest, s: seq<Level>, level: nat, o: nat)
    requires level < |s|
  {
    At(s[level], o).Absent? || Known(d, s, level, o) == At(s[level], o)
  }

  ghost predicate WellPlaced(s: seq<Level>, count: nat) {
    forall level: nat, o: nat :: level < |s| ==> Placed(At(s[level], o), o, Width(count, level))
  }

  ghost predicate Legal(s: seq<Level>) {
    forall level: nat, o: nat :: 1 <= level < |s| && !At(s[level], o).Absent? ==> SiblingOfAncestor(s, level, o)
  }

  ghost predicate Compatible(d: Digest, s: seq<Level>) {
    forall level: nat, o: nat :: level < |s| ==> CompatibleAt(d, s, level, o)
  }

  ghost predicate Valid(d: Digest, v: View) {
    && v.count > 1
    && |v.supplied| == TreeHeight(v.count) + 1
    && WellPlaced(v.supplied, v.count)
    && Legal(v.supplied)
    && Compatible(d, v.supplied)
    && Known(d, v.supplied, |v.supplied| - 1, 0) == Hashed(v.root)
    && (forall b :: IsBase(v.supplied, b) ==> Connected(d, v.supplied, b))
  }

  // Offsets

  lemma {:induction false} ShiftInWidth(n: nat, b: nat, level: nat)
    requires b < n
    ensures Shift(b, level) < Width(n, level)
  {
    if level != 0 {
      ShiftInWidth(n, b, level - 1);
    }
  }

  lemma {:induction false} ShiftMonotone(a: nat, b: nat, level: nat)
    requires a <= b
    ensures Shift(a, level) <= Shift(b, level)
  {
    if level != 0 {
      ShiftMonotone(a, b, level - 1);
    }
  }

  // Shape of valid views

  lemma {:induction false} KnownPlaced(d: Digest, s: seq<Level>, count: nat, level: nat, o: nat)
    requires level < |s| && WellPlaced(s, count)
    ensures Placed(Known(d, s, level, o), o, Width(count, level))
  {
    assert Placed(At(s[level], o), o, Width(count, level));
    if level != 0 && HasPair(d, s, level - 1, o) {
      KnownPlaced(d, s, count, level - 1, 2 * o);
    }
  }

  /** Every known node is on or beside the way of some base; only a marker at the leaves may not be. */
  lemma {:induction false} KnownIsLinked(d: Digest, s: seq<Level>, level: nat, o: nat)
    requires level < |s| && Legal(s)
    requires if level == 0 then Known(d, s, level, o).Hashed? else !Known(d, s, level, o).Absent?
    ensures Linked(s, level, o)
  {
    if level == 0 {
      assert IsBase(s, o) && o == Shift(o, 0);
    } else if HasPair(d, s, level - 1, o) {
      KnownIsLinked(d, s, level - 1, 2 * o);
      var b :| IsBase(s, b) && (2 * o == Shift(b, level - 1) || 2 * o == Sibling(Shift(b, level - 1)));
      assert o == Shift(b, level);
    } else {
      assert SiblingOfAncestor(s, level, o);
      var b :| IsBase(s, b) && Shift(b, level) == Sibling(o);
      assert o == Sibling(Shift(b, level));
    }
  }

  lemma SiblingPair(a: nat)
    ensures Sibling(a) / 2 == a / 2
    ensures a % 2 == 0 ==> a == 2 * (a / 2) && Sibling(a) == 2 * (a / 2) + 1
    ensures a % 2 == 1 ==> a == 2 * (a / 2) + 1 && Sibling(a) == 2 * (a / 2)
  {
  }

  /** The left one of a hash and its sibling is never a marker. */
  lemma SiblingsArePair(d: Digest, s: seq<Level>, count: nat, level: nat, a: nat)
    requires level < |s| && WellPlaced(s, count)
    requires Known(d, s, level, a).Hashed? && !Known(d, s, level, Sibling(a)).Absent?
    ensures HasPair(d, s, level, a / 2)
  {
    SiblingPair(a);
    KnownPlaced(d, s, count, level, Sibling(a));
  }

  /** Below the root, a linked node and its sibling are known and were hashed into a known parent. */
  lemma LinkedHasPair(d: Digest, v: View, level: nat, o: nat)
    requires Valid(d, v) && level + 1 < |v.supplied| && Linked(v.supplied, level, o)
    ensures HasPair(d, v.supplied, level, o / 2)
    ensures Known(d, v.supplied, level + 1, o / 2) == Hashed(d(PairIn(d, v.supplied, level, o / 2)))
    ensures Linked(v.supplied, level + 1, o / 2)
  {
    var b :| IsBase(v.supplied, b) && (o == Shift(b, level) || o == Sibling(Shift(b, level)));
    var a := Shift(b, level);
    assert Connected(d, v.supplied, b);
    assert ConnectedAt(d, v.supplied, b, level);
    assert Known(d, v.supplied, level, a).Hashed? by {
      if level > 0 {
        assert ConnectedAt(d, v.supplied, b, level - 1);
      }
    }
    SiblingPair(a);
    SiblingsArePair(d, v.supplied, v.count, level, a);
    assert Shift(b, level + 1) == o / 2;
  }

  /** Nothing is known at the top beside the root. */
  lemma TopIsOnlyZero(d: Digest, v: View, o: nat)
    requires Valid(d, v) && o != 0
    ensures Known(d, v.supplied, |v.supplied| - 1, o).Absent?
  {
    KnownPlaced(d, v.supplied, v.count, |v.supplied| - 1, o);
    WidthAboveOne(v.count, |v.supplied| - 1);
  }

  // Agreement

  /** Two sparse trees hash different pairs to one parent at this place. */
  ghost predicate CollisionAt(d: Digest, a: seq<Level>, b: seq<Level>, level: nat, i: nat) {
    && level < |a| && level < |b|
    && HasPair(d, a, level, i) && HasPair(d, b, level, i)
    && Collision(d, PairIn(d, a, level, i), PairIn(d, b, level, i))
  }

  ghost predicate LevelsCollision(d: Digest, a: seq<Level>, b: seq<Level>) {
    exists level: nat, i: nat :: CollisionAt(d, a, b, level, i)
  }

  lemma CollisionSomewhere(d: Digest, a: seq<Level>, b: seq<Level>, level: nat, i: nat)
    requires CollisionAt(d, a, b, level, i)
    ensures LevelsCollision(d, a, b)
  {
  }

  ghost predicate SameTree(a: View, b: View) {
    a.count == b.count && a.root == b.root
  }

  lemma PairsAgree(l: Node, r: Node, l': Node, r': Node, o: nat, width: nat)
    requires IsPair(l, r) && IsPair(l', r') && PairOf(l, r) == PairOf(l', r')
    requires Placed(r, o, width) && Placed(r', o, width)
    ensures l == l' && r == r'
  {
    assert PairOf(l, r)[..32] == l.hash && PairOf(l', r')[..32] == l'.hash;
    if r.Hashed? && r'.Hashed? {
      assert PairOf(l, r)[32..] == r.hash && PairOf(l', r')[32..] == r'.hash;
    }
  }

  /** Equal parents have equal children, or the children collide. */
  lemma ChildrenAgree(d: Digest, s: seq<Level>, t: seq<Level>, count: nat, level: nat, p: nat)
    requires level < |s| && level < |t| && WellPlaced(s, count) && WellPlaced(t, count)
    requires HasPair(d, s, level, p) && HasPair(d, t, level, p)
    requires d(PairIn(d, s, level, p)) == d(PairIn(d, t, level, p))
    ensures CollisionAt(d, s, t, level, p) ||
            (&& Known(d, s, level, 2 * p) == Known(d, t, level, 2 * p)
             && Known(d, s, level, 2 * p + 1) == Known(d, t, level, 2 * p + 1))
  {
    if !CollisionAt(d, s, t, level, p) {
      KnownPlaced(d, s, count, level, 2 * p + 1);
      KnownPlaced(d, t, count, level, 2 * p + 1);
      PairsAgree(Known(d, s, level, 2 * p), Known(d, s, level, 2 * p + 1),
                 Known(d, t, level, 2 * p), Known(d, t, level, 2 * p + 1), 2 * p + 1, Width(count, level));
    }
  }

  lemma ChildAgrees(d: Digest, s: seq<Level>, t: seq<Level>, count: nat, level: nat, o: nat)
    requires level < |s| && level < |t| && WellPlaced(s, count) && WellPlaced(t, count)
    requires HasPair(d, s, level, o / 2) && HasPair(d, t, level, o / 2)
    requires d(PairIn(d, s, level, o / 2)) == d(PairIn(d, t, level, o / 2))
    requires !CollisionAt(d, s, t, level, o / 2)
    ensures Known(d, s, level, o) == Known(d, t, level, o)
  {
    var p := o / 2;
    ChildrenAgree(d, s, t, count, level, p);
    if o % 2 == 0 {
      assert o == 2 * p;
    } else {
      assert o == 2 * p + 1;
    }
  }

  lemma {:induction false} LinkedAgree(d: Digest, a: View, b: View, level: nat, o: nat)
    requires Valid(d, a) && Valid(d, b) && SameTree(a, b)
    requires level < |a.supplied| && Linked(a.supplied, level, o) && Linked(b.supplied, level, o)
    requires level + 1 == |a.supplied| ==> o == 0
    ensures LevelsCollision(d, a.supplied, b.supplied) ||
            Known(d, a.supplied, level, o) == Known(d, b.supplied, level, o)
    decreases |a.supplied| - level
  {
    hide HalfUp, Shift, Sibling, Width;
    if level + 1 < |a.supplied| {
      var p := o / 2;
      LinkedHasPair(d, a, level, o);
      LinkedHasPair(d, b, level, o);
      assert level + 2 == |a.supplied| ==> p == 0 by {
        if level + 2 == |a.supplied| && p != 0 {
          TopIsOnlyZero(d, a, p);
        }
      }
      LinkedAgree(d, a, b, level + 1, p);
      if CollisionAt(d, a.supplied, b.supplied, level, p) {
        CollisionSomewhere(d, a.supplied, b.supplied, level, p);
      } else if !LevelsCollision(d, a.supplied, b.supplied) {
        ChildAgrees(d, a.supplied, b.supplied, a.count, level, o);
      }
    }
  }

  /** Whatever two valid sparse trees under one root both know, they know alike. */
  lemma KnownAgree(d: Digest, a: View, b: View, level: nat, o: nat)
    requires Valid(d, a) && Valid(d, b) && SameTree(a, b) && level < |a.supplied|
    requires !Known(d, a.supplied, level, o).Absent? && !Known(d, b.supplied, level, o).Absent?
    ensures LevelsCollision(d, a.supplied, b.supplied) ||
            Known(d, a.supplied, level, o) == Known(d, b.supplied, level, o)
  {
    hide HalfUp, Shift, Sibling;
    KnownPlaced(d, a.supplied, a.count, level, o);
    KnownPlaced(d, b.supplied, a.count, level, o);
    if level > 0 || (Known(d, a.supplied, level, o).Hashed? && Known(d, b.supplied, level, o).Hashed?) {
      KnownIsLinked(d, a.supplied, level, o);
      KnownIsLinked(d, b.supplied, level, o);
      if level + 1 == |a.supplied| && o != 0 {
        TopIsOnlyZero(d, a, o);
      }
      LinkedAgree(d, a, b, level, o);
    }
  }
}
