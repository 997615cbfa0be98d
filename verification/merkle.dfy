/** BRC-136 roots: the layered Merkle tree of pkg/core/basm/hash.go. */
module Merkle {
  import opened Bytes
  import opened Wrappers

  // Tree shape

  /** The number of parents of n nodes, an odd last node being its own sibling. */
  function HalfUp(n: nat): nat {
    n / 2 + n % 2
  }

  /** The number of nodes at a level above n leaves. */
  function Width(n: nat, level: nat): nat {
    if level == 0 then n else HalfUp(Width(n, level - 1))
  }

  /** How many times a layer of n nodes is replaced before one node is left. */
  function TreeHeight(n: nat): nat {
    if n <= 1 then 0 else 1 + TreeHeight(HalfUp(n))
  }

  lemma {:induction false} WidthShift(n: nat, level: nat)
    ensures Width(n, level + 1) == Width(HalfUp(n), level)
  {
    if level != 0 {
      WidthShift(n, level - 1);
    }
  }

  lemma HalfUpRoundsUp(w: nat, h: nat)
    requires h == HalfUp(w)
    ensures w == 2 * h || w + 1 == 2 * h
  {
  }

  lemma Distribute(p: nat, x: nat)
    ensures p * (x - 1) == p * x - p && 2 * p * x == 2 * (p * x) && 2 * p * (x - 1) == 2 * (p * x) - 2 * p
    ensures p * (2 * x) == 2 * (p * x) && p * (2 * x - 1) == 2 * (p * x) - p
  {
  }

  lemma HalfUpBounds(p: nat, n: int, w: nat, h: nat)
    requires h == HalfUp(w)
    requires p * w >= n
    requires w > 0 ==> p * (w - 1) < n
    ensures 2 * p * h >= n
    ensures h > 0 ==> 2 * p * (h - 1) < n
  {
    HalfUpRoundsUp(w, h);
    hide HalfUp;
    Distribute(p, h);
    Distribute(p, w);
    assert p * w == if w == 2 * h then 2 * (p * h) else 2 * (p * h) - p;
  }

  /** The loop width/2 + width%2 computes the ceiling of n / 2^level. */
  lemma {:induction false} WidthIsCeiling(n: nat, level: nat)
    ensures Pow2(level) * Width(n, level) >= n
    ensures Width(n, level) > 0 ==> Pow2(level) * (Width(n, level) - 1) < n
  {
    if level != 0 {
      hide HalfUp;
      WidthIsCeiling(n, level - 1);
      HalfUpBounds(Pow2(level - 1), n, Width(n, level - 1), Width(n, level));
    }
  }

  lemma HalfUpKeepsOne(n: nat)
    requires n >= 1
    ensures HalfUp(n) >= 1 && (n == 1 ==> HalfUp(n) == 1)
  {
  }

  lemma {:induction false} WidthAboveOne(n: nat, level: nat)
    requires n >= 1
    ensures Width(n, level) >= 1
    ensures level < TreeHeight(n) ==> Width(n, level) > 1
    ensures level == TreeHeight(n) ==> Width(n, level) == 1
    decreases level
  {
    HalfUpKeepsOne(n);
    hide HalfUp;
    if level != 0 {
      WidthShift(n, level - 1);
      WidthAboveOne(HalfUp(n), level - 1);
    }
  }

  // Layers and roots

  /** The 64 bytes hashed for a parent. */
  function PairBytes(left: Hash, right: Hash): (r: seq<byte>)
    ensures |r| == 64
  {
    var l: seq<byte> := left;
    l + right
  }

  /** The left hash comes first. */
  lemma PairBytesInOrder(left: Hash, right: Hash)
    ensures PairBytes(left, right)[..32] == left && PairBytes(left, right)[32..] == right
  {
  }

  /** The bytes hashed for parent i of a layer; an odd last node is hashed with itself. */
  function PairAt(layer: seq<Hash>, i: nat): seq<byte>
    requires i < HalfUp(|layer|)
  {
    PairBytes(layer[2 * i], layer[if 2 * i + 1 < |layer| then 2 * i + 1 else 2 * i])
  }

  function NextLayer(d: Digest, layer: seq<Hash>): (r: seq<Hash>)
    ensures |r| == HalfUp(|layer|)
  {
    if |layer| == 0 then []
    else if |layer| == 1 then [d(PairBytes(layer[0], layer[0]))]
    else [d(PairBytes(layer[0], layer[1]))] + NextLayer(d, layer[2..])
  }

  /** Each parent is the hash of its pair. */
  lemma {:induction false} ParentAt(d: Digest, layer: seq<Hash>, i: nat)
    requires i < HalfUp(|layer|)
    ensures NextLayer(d, layer)[i] == d(PairAt(layer, i))
  {
    if i > 0 {
      ParentAt(d, layer[2..], i - 1);
    }
  }

  function Layer(d: Digest, leaves: seq<Hash>, level: nat): (r: seq<Hash>)
    ensures |r| == Width(|leaves|, level)
  {
    if level == 0 then leaves else NextLayer(d, Layer(d, leaves, level - 1))
  }

  function MerkleRoot(d: Digest, leaves: seq<Hash>): Hash
    decreases |leaves|
  {
    if |leaves| == 0 then ZeroHash
    else if |leaves| == 1 then leaves[0]
    else MerkleRoot(d, NextLayer(d, leaves))
  }

  lemma {:induction false} LayerShift(d: Digest, leaves: seq<Hash>, level: nat)
    ensures Layer(d, leaves, level + 1) == Layer(d, NextLayer(d, leaves), level)
  {
    if level != 0 {
      LayerShift(d, leaves, level - 1);
    }
  }

  lemma {:induction false} RootIsTopLayer(d: Digest, leaves: seq<Hash>)
    requires |leaves| >= 1
    ensures |Layer(d, leaves, TreeHeight(|leaves|))| == 1
    ensures MerkleRoot(d, leaves) == Layer(d, leaves, TreeHeight(|leaves|))[0]
    decreases |leaves|
  {
    WidthAboveOne(|leaves|, TreeHeight(|leaves|));
    if |leaves| > 1 {
      var next := NextLayer(d, leaves);
      RootIsTopLayer(d, next);
      LayerShift(d, leaves, TreeHeight(|next|));
    }
  }

  /** Two trees of one shape hash different pairs to one parent at some place. */
  ghost predicate TreeCollision(d: Digest, a: seq<Hash>, b: seq<Hash>)
    requires |a| == |b|
    decreases |a|
  {
    |a| > 1 &&
    ((exists i :: 0 <= i < HalfUp(|a|) && Collision(d, PairAt(a, i), PairAt(b, i))) ||
     TreeCollision(d, NextLayer(d, a), NextLayer(d, b)))
  }

  lemma PairsDetermineLayer(a: seq<Hash>, b: seq<Hash>)
    requires |a| == |b|
    requires forall i :: 0 <= i < HalfUp(|a|) ==> PairAt(a, i) == PairAt(b, i)
    ensures a == b
  {
    forall k | 0 <= k < |a|
      ensures a[k] == b[k]
    {
      var i := k / 2;
      assert PairAt(a, i) == PairAt(b, i);
      assert PairAt(a, i)[..32] == a[2 * i] && PairAt(b, i)[..32] == b[2 * i];
      if k % 2 == 1 {
        assert PairAt(a, i)[32..] == a[k] && PairAt(b, i)[32..] == b[k];
      }
    }
  }

  /** A root commits to the order and values of a known number of leaves. */
  lemma {:induction false} RootCommitsToLeaves(d: Digest, a: seq<Hash>, b: seq<Hash>)
    requires |a| == |b|
    requires MerkleRoot(d, a) == MerkleRoot(d, b)
    ensures a == b || TreeCollision(d, a, b)
    decreases |a|
  {
    if |a| > 1 && !TreeCollision(d, a, b) {
      var nextA, nextB := NextLayer(d, a), NextLayer(d, b);
      RootCommitsToLeaves(d, nextA, nextB);
      forall i | 0 <= i < HalfUp(|a|)
        ensures PairAt(a, i) == PairAt(b, i)
      {
        ParentAt(d, a, i);
        ParentAt(d, b, i);
        assert !Collision(d, PairAt(a, i), PairAt(b, i));
      }
      PairsDetermineLayer(a, b);
    }
  }

  // The loops of hash.go

  /** Allocates the next layer and fills one parent for each two children. */
  method HashMerkleLayer(d: Digest, layer: seq<Hash>) returns (next: seq<Hash>)
    ensures next == NextLayer(d, layer)
  {
    hide NextLayer, PairBytes;
    ghost var whole := NextLayer(d, layer);
    var buffer := new Hash[HalfUp(|layer|)](i => ZeroHash);
    var left, parent := 0, 0;
    while left < |layer|
      invariant left == 2 * parent
      invariant parent <= buffer.Length
      invariant left >= |layer| ==> parent == buffer.Length
      invariant forall i :: 0 <= i < parent ==> buffer[i] == whole[i]
    {
      var right := left + 1;
      if right == |layer| {
        right := left;
      }
      buffer[parent] := d(PairBytes(layer[left], layer[right]));
      ParentAt(d, layer, parent);
      left, parent := left + 2, parent + 1;
    }
    next := buffer[..];
    assert next == whole;
  }

  method HashMerkleRoot(d: Digest, leaves: seq<Hash>) returns (root: Hash)
    requires |leaves| > 1
    ensures root == MerkleRoot(d, leaves)
  {
    var layer := leaves;
    while |layer| > 1
      invariant |layer| >= 1
      invariant MerkleRoot(d, layer) == MerkleRoot(d, leaves)
      decreases |layer|
    {
      layer := HashMerkleLayer(d, layer);
    }
    root := layer[0];
  }

  method Root(d: Digest, leaves: seq<Hash>, maxLeaves: nat) returns (r: Result<Hash, BasmError>)
    ensures maxLeaves == 0 ==> r == Failure(InvalidInput)
    ensures 0 < maxLeaves < |leaves| ==> r == Failure(LimitExceeded)
    ensures |leaves| <= maxLeaves && maxLeaves > 0 ==> r == Success(MerkleRoot(d, leaves))
  {
    if maxLeaves == 0 {
      return Failure(InvalidInput);
    }
    if |leaves| > maxLeaves {
      return Failure(LimitExceeded);
    }
    match |leaves| {
      case 0 => r := Success(ZeroHash);
      case 1 => r := Success(leaves[0]);
      case _ =>
        var root := HashMerkleRoot(d, leaves);
        r := Success(root);
    }
  }
}
