/** The cumulative topic anchor chain (pkg/core/basm/chain.go) and anchor ranges served from storage. */
module TopicChain {
  import opened Anchors
  import opened BasmProof
  import opened Bytes
  import opened Merkle
  import opened Wrappers

  const MaxUint32: nat := 0xFFFF_FFFF

  datatype Chain = Chain(topic: seq<byte>, genesis: uint32, limits: Limits, height: uint32, tac: Hash, hasTip: bool)

  /** The 96 bytes hashed for one step. */
  function TACBytes(previous: Hash, blockHash: Hash, root: Hash): (r: seq<byte>)
    ensures |r| == 96
    ensures r[..32] == previous && r[32..64] == blockHash && r[64..] == root
  {
    var p: seq<byte> := previous;
    p + blockHash + root
  }

  function HashTACStep(d: Digest, previous: Hash, blockHash: Hash, root: Hash): Hash {
    d(TACBytes(previous, blockHash, root))
  }

  function NewChain(utf8: Utf8, topic: seq<byte>, genesisHeight: uint32, limits: Limits): (r: Result<Chain, BasmError>)
    ensures r.Success? <==> LimitsValid(limits) && TopicValid(utf8, topic, limits.maxTopicBytes)
  {
    if !LimitsValid(limits) then Failure(InvalidInput)
    else if !TopicValid(utf8, topic, limits.maxTopicBytes) then Failure(InvalidInput)
    else Success(Chain(topic, genesisHeight, limits, 0, ZeroHash, false))
  }

  /** The height the next anchor must have; none is left after the last 32-bit height. */
  function ExpectedHeight(c: Chain): Option<uint32> {
    if !c.hasTip then Some(c.genesis)
    else if c.height == MaxUint32 then None
    else Some(c.height + 1)
  }

  /** The chain including the anchor, or the chain as it was and an error. */
  function Append(d: Digest, utf8: Utf8, c: Chain, anchor: TopicBlockAnchor): (r: (Chain, Option<BasmError>))
    ensures r.1.Some? ==> r.0 == c
  {
    var invalid := Validate(utf8, anchor, c.limits);
    if invalid.Some? then (c, invalid)
    else if anchor.topic != c.topic then (c, Some(Noncontiguous))
    else if ExpectedHeight(c) != Some(anchor.blockHeight) then (c, Some(Noncontiguous))
    else (c.(tac := HashTACStep(d, c.tac, anchor.blockHash, anchor.basmRoot), height := anchor.blockHeight, hasTip := true),
          None)
  }

  /** An anchor is appended exactly when it is well formed, of the chain's topic and at the next height. */
  lemma AppendsTheNextAnchor(d: Digest, utf8: Utf8, c: Chain, anchor: TopicBlockAnchor)
    ensures var (next, error) := Append(d, utf8, c, anchor);
      && (error == None <==>
            && WellFormedAnchor(utf8, anchor, c.limits) && anchor.topic == c.topic
            && anchor.blockHeight == if c.hasTip then c.height + 1 else c.genesis)
      && (error == None ==> Tip(next) == (anchor.blockHeight, d(c.tac + anchor.blockHash + anchor.basmRoot), true))
      && (error.Some? && WellFormedAnchor(utf8, anchor, c.limits) ==> error == Some(Noncontiguous))
  {
    ValidAnchorIsWellFormed(utf8, anchor, c.limits);
  }

  function Tip(c: Chain): (uint32, Hash, bool) {
    (c.height, c.tac, c.hasTip)
  }

  /** Appends all anchors in order, or fails with the first error. */
  function AppendAll(d: Digest, utf8: Utf8, c: Chain, anchors: seq<TopicBlockAnchor>): Result<Chain, BasmError> {
    if anchors == [] then Success(c)
    else
      var front := AppendAll(d, utf8, c, anchors[..|anchors| - 1]);
      if front.Failure? then front
      else
        var (next, error) := Append(d, utf8, front.value, anchors[|anchors| - 1]);
        if error.Some? then Failure(error.value) else Success(next)
  }

  /** A chain grown from genesis by anchors. */
  ghost predicate Grown(d: Digest, utf8: Utf8, c: Chain, anchors: seq<TopicBlockAnchor>) {
    exists c0: Chain :: NewChain(utf8, c.topic, c.genesis, c.limits) == Success(c0) && AppendAll(d, utf8, c0, anchors) == Success(c)
  }

  // What a tip commits to

  function TACAfter(d: Digest, anchors: seq<TopicBlockAnchor>): Hash {
    if anchors == [] then ZeroHash
    else
      var last := anchors[|anchors| - 1];
      HashTACStep(d, TACAfter(d, anchors[..|anchors| - 1]), last.blockHash, last.basmRoot)
  }

  /** The bytes hashed when anchor k was appended. */
  function StepBytes(d: Digest, anchors: seq<TopicBlockAnchor>, k: nat): seq<byte>
    requires k < |anchors|
  {
    TACBytes(TACAfter(d, anchors[..k]), anchors[k].blockHash, anchors[k].basmRoot)
  }

  ghost predicate ChainCollision(d: Digest, a: seq<TopicBlockAnchor>, b: seq<TopicBlockAnchor>)
    requires |a| == |b|
  {
    exists k :: 0 <= k < |a| && Collision(d, StepBytes(d, a, k), StepBytes(d, b, k))
  }

  lemma {:induction false} AppendAllTip(d: Digest, utf8: Utf8, c0: Chain, anchors: seq<TopicBlockAnchor>)
    requires !c0.hasTip && c0.tac == ZeroHash && AppendAll(d, utf8, c0, anchors).Success?
    ensures var c := AppendAll(d, utf8, c0, anchors).value;
            && c.topic == c0.topic && c.genesis == c0.genesis && c.limits == c0.limits
            && (c.hasTip <==> anchors != [])
            && (c.hasTip ==> c.height == c0.genesis + |anchors| - 1)
            && c.tac == TACAfter(d, anchors)
    ensures forall k :: 0 <= k < |anchors| ==>
              anchors[k].blockHeight == c0.genesis + k && anchors[k].topic == c0.topic
    decreases |anchors|
  {
    if anchors != [] {
      var n := |anchors| - 1;
      AppendAllTip(d, utf8, c0, anchors[..n]);
      assert forall k :: 0 <= k < n ==> anchors[..n][k] == anchors[k];
    }
  }

  lemma FrontStep(d: Digest, a: seq<TopicBlockAnchor>, n: nat, k: nat)
    requires k < n <= |a|
    ensures StepBytes(d, a[..n], k) == StepBytes(d, a, k)
  {
    assert a[..n][..k] == a[..k];
  }

  lemma FrontChainCollision(d: Digest, a: seq<TopicBlockAnchor>, b: seq<TopicBlockAnchor>, n: nat)
    requires n <= |a| == |b|
    ensures ChainCollision(d, a[..n], b[..n]) ==> ChainCollision(d, a, b)
  {
    if ChainCollision(d, a[..n], b[..n]) {
      var k :| 0 <= k < n && Collision(d, StepBytes(d, a[..n], k), StepBytes(d, b[..n], k));
      FrontStep(d, a, n, k);
      FrontStep(d, b, n, k);
    }
  }

  lemma {:induction false} TACDeterminesHistory(d: Digest, a: seq<TopicBlockAnchor>, b: seq<TopicBlockAnchor>)
    requires |a| == |b| && TACAfter(d, a) == TACAfter(d, b)
    ensures ChainCollision(d, a, b) ||
            forall k :: 0 <= k < |a| ==> a[k].blockHash == b[k].blockHash && a[k].basmRoot == b[k].basmRoot
    decreases |a|
  {
    if a != [] && !ChainCollision(d, a, b) {
      var n := |a| - 1;
      var x, y := StepBytes(d, a, n), StepBytes(d, b, n);
      assert !Collision(d, x, y);
      assert x[..32] == y[..32] && x[32..64] == y[32..64] && x[64..] == y[64..];
      FrontChainCollision(d, a, b, n);
      TACDeterminesHistory(d, a[..n], b[..n]);
      assert forall k :: 0 <= k < n ==> a[..n][k] == a[k] && b[..n][k] == b[k];
    }
  }

  /** Two chains with one genesis and equal tips have the same block hash and root at every height. */
  lemma EqualTipsHaveOneHistory(d: Digest, utf8: Utf8, c: Chain, c': Chain,
                                a: seq<TopicBlockAnchor>, b: seq<TopicBlockAnchor>)
    requires Grown(d, utf8, c, a) && Grown(d, utf8, c', b)
    requires c.genesis == c'.genesis && Tip(c) == Tip(c')
    ensures |a| == |b|
    ensures ChainCollision(d, a, b) ||
            forall k :: 0 <= k < |a| ==>
              && a[k].blockHeight == b[k].blockHeight == c.genesis + k
              && a[k].blockHash == b[k].blockHash && a[k].basmRoot == b[k].basmRoot
  {
    var c0: Chain :| NewChain(utf8, c.topic, c.genesis, c.limits) == Success(c0) && AppendAll(d, utf8, c0, a) == Success(c);
    var c0': Chain :| NewChain(utf8, c'.topic, c'.genesis, c'.limits) == Success(c0') && AppendAll(d, utf8, c0', b) == Success(c');
    AppendAllTip(d, utf8, c0, a);
    AppendAllTip(d, utf8, c0', b);
    TACDeterminesHistory(d, a, b);
  }

  /** Equal tips even fix the admitted transactions of each height, once their number is known. */
  lemma EqualTipsHaveOneAdmission(d: Digest, utf8: Utf8, c: Chain, c': Chain,
                                  a: seq<TopicBlockAnchor>, b: seq<TopicBlockAnchor>, k: nat,
                                  x: seq<AdmittedTxRef>, y: seq<AdmittedTxRef>, n: uint64, n': uint64)
    requires Grown(d, utf8, c, a) && Grown(d, utf8, c', b)
    requires c.genesis == c'.genesis && Tip(c) == Tip(c') && k < |a| && k < |b|
    requires AnchorListAccepted(d, utf8, a[k], x, n, c.limits) && AnchorListAccepted(d, utf8, b[k], y, n', c'.limits)
    requires |x| == |y|
    ensures |a| == |b|
    ensures Txids(x) == Txids(y) || ChainCollision(d, a, b) || TreeCollision(d, Txids(x), Txids(y))
  {
    EqualTipsHaveOneHistory(d, utf8, c, c', a, b);
    if !ChainCollision(d, a, b) {
      AnchorCommitsToList(d, utf8, a[k], b[k], x, y, n, n', c.limits, c'.limits);
    }
  }

  // Anchor ranges (pkg/core/engine/basm-read-service.go)

  datatype RangeError = RangeInvalidData | RangeNotReady | RangeHeaderUnavailable

  /** An anchor with its cumulative value, as storage returns it. */
  datatype StoredAnchor = StoredAnchor(anchor: TopicBlockAnchor, tac: Hash)

  /** The canonical header at a height, if the chain source has one. */
  type HeaderResolver = uint32 -> Option<CanonicalHeader>

  /** Checks one anchor against the topic, the limits and the canonical header. */
  function ValidateAnchor(utf8: Utf8, headers: HeaderResolver, topic: seq<byte>, limits: Limits, anchor: TopicBlockAnchor):
    Result<CanonicalHeader, RangeError>
  {
    if anchor.topic != topic then Failure(RangeInvalidData)
    else if Validate(utf8, anchor, limits).Some? then Failure(RangeInvalidData)
    else
      var header := headers(anchor.blockHeight);
      if header.None? then Failure(RangeHeaderUnavailable)
      else if || header.value.height != anchor.blockHeight || header.value.blockHash != anchor.blockHash
              || header.value.transactionCount == 0 || header.value.transactionCount > MaxSafeJSONInteger
      then Failure(RangeNotReady)
      else if anchor.admittedCount > header.value.transactionCount then Failure(RangeInvalidData)
      else Success(header.value)
  }

  /** Consecutive heights, valid anchors, and each cumulative value stepping from the one before. */
  ghost predicate RangeAccepted(d: Digest, utf8: Utf8, headers: HeaderResolver, topic: seq<byte>, limits: Limits,
                                from: uint32, anchors: seq<StoredAnchor>) {
    && (forall i :: 0 <= i < |anchors| ==>
          && anchors[i].anchor.blockHeight == from + i
          && ValidateAnchor(utf8, headers, topic, limits, anchors[i].anchor).Success?)
    && (forall i :: 0 < i < |anchors| ==>
          anchors[i].tac == HashTACStep(d, anchors[i - 1].tac, anchors[i].anchor.blockHash, anchors[i].anchor.basmRoot))
  }

  /** The first anchor that breaks a range, and the error for it: the height, the anchor itself, the cumulative value. */
  ghost predicate RangeFailsAt(d: Digest, utf8: Utf8, headers: HeaderResolver, topic: seq<byte>, limits: Limits,
                               from: uint32, anchors: seq<StoredAnchor>, i: nat, error: RangeError) {
    && i < |anchors| && RangeAccepted(d, utf8, headers, topic, limits, from, anchors[..i])
    && var checked := ValidateAnchor(utf8, headers, topic, limits, anchors[i].anchor);
       if anchors[i].anchor.blockHeight != from + i then error == RangeInvalidData
       else if checked.Failure? then error == checked.error
       else
         && error == RangeInvalidData && i > 0
         && anchors[i].tac != HashTACStep(d, anchors[i - 1].tac, anchors[i].anchor.blockHash, anchors[i].anchor.basmRoot)
  }

  /** What a stored anchor must be at a height, and what the canonical header there must say. */
  predicate StoredAnchorFits(utf8: Utf8, topic: seq<byte>, limits: Limits, height: nat, anchor: TopicBlockAnchor) {
    anchor.blockHeight == height && anchor.topic == topic && WellFormedAnchor(utf8, anchor, limits)
  }

  predicate HeaderMatches(header: CanonicalHeader, anchor: TopicBlockAnchor) {
    && header.height == anchor.blockHeight && header.blockHash == anchor.blockHash
    && 0 < header.transactionCount <= MaxSafeJSONInteger
  }

  /** The anchors of a range, the headers they were checked against, and the cumulative values between them. */
  ghost predicate RangeFits(d: Digest, utf8: Utf8, headers: HeaderResolver, topic: seq<byte>, limits: Limits,
                            from: uint32, anchors: seq<StoredAnchor>, found: seq<CanonicalHeader>) {
    && |found| == |anchors|
    && (forall i :: 0 <= i < |anchors| ==>
          && StoredAnchorFits(utf8, topic, limits, from + i, anchors[i].anchor)
          && headers(anchors[i].anchor.blockHeight) == Some(found[i])
          && HeaderMatches(found[i], anchors[i].anchor)
          && anchors[i].anchor.admittedCount <= found[i].transactionCount)
    && (forall i :: 0 < i < |anchors| ==>
          anchors[i].tac == d(anchors[i - 1].tac + anchors[i].anchor.blockHash + anchors[i].anchor.basmRoot))
  }

  /** The error of the first anchor that does not fit, by the first comparison that fails. */
  ghost predicate RangeErrorAt(d: Digest, utf8: Utf8, headers: HeaderResolver, topic: seq<byte>, limits: Limits,
                               from: uint32, anchors: seq<StoredAnchor>, i: nat, error: RangeError) {
    && i < |anchors|
    && (exists found :: RangeFits(d, utf8, headers, topic, limits, from, anchors[..i], found))
    && var a := anchors[i].anchor;
       var header := headers(a.blockHeight);
       error ==
         if !StoredAnchorFits(utf8, topic, limits, from + i, a) then RangeInvalidData
         else if header.None? then RangeHeaderUnavailable
         else if !HeaderMatches(header.value, a) then RangeNotReady
         else RangeInvalidData
  }

  lemma RangeFitsWhenAccepted(d: Digest, utf8: Utf8, headers: HeaderResolver, topic: seq<byte>, limits: Limits,
                              from: uint32, anchors: seq<StoredAnchor>, found: seq<CanonicalHeader>)
    requires |found| == |anchors|
    requires forall i :: 0 <= i < |anchors| ==> headers(anchors[i].anchor.blockHeight) == Some(found[i])
    ensures RangeAccepted(d, utf8, headers, topic, limits, from, anchors) <==>
            RangeFits(d, utf8, headers, topic, limits, from, anchors, found)
  {
    hide WellFormedAnchor, Validate;
    forall i | 0 <= i < |anchors|
      ensures Validate(utf8, anchors[i].anchor, limits) == None <==> WellFormedAnchor(utf8, anchors[i].anchor, limits)
    {
      ValidAnchorIsWellFormed(utf8, anchors[i].anchor, limits);
    }
    forall i | 0 < i < |anchors|
      ensures HashTACStep(d, anchors[i - 1].tac, anchors[i].anchor.blockHash, anchors[i].anchor.basmRoot) ==
              d(anchors[i - 1].tac + anchors[i].anchor.blockHash + anchors[i].anchor.basmRoot)
    {
    }
  }

  lemma RangeFitsIsAccepted(d: Digest, utf8: Utf8, headers: HeaderResolver, topic: seq<byte>, limits: Limits,
                            from: uint32, anchors: seq<StoredAnchor>)
    ensures RangeAccepted(d, utf8, headers, topic, limits, from, anchors) <==>
            exists found :: RangeFits(d, utf8, headers, topic, limits, from, anchors, found)
  {
    if RangeAccepted(d, utf8, headers, topic, limits, from, anchors) {
      var found := seq(|anchors|, i requires 0 <= i < |anchors| => HeaderAt(headers, anchors[i].anchor.blockHeight));
      RangeFitsWhenAccepted(d, utf8, headers, topic, limits, from, anchors, found);
    }
    if found :| RangeFits(d, utf8, headers, topic, limits, from, anchors, found) {
      RangeFitsWhenAccepted(d, utf8, headers, topic, limits, from, anchors, found);
    }
  }

  /** The canonical header at a height, or some header where there is none. */
  function HeaderAt(headers: HeaderResolver, height: uint32): CanonicalHeader {
    if headers(height).Some? then headers(height).value else CanonicalHeader(0, ZeroHash, ZeroHash, 0)
  }

  lemma RangeFailureIsAnError(d: Digest, utf8: Utf8, headers: HeaderResolver, topic: seq<byte>, limits: Limits,
                              from: uint32, anchors: seq<StoredAnchor>, i: nat, error: RangeError)
    requires RangeFailsAt(d, utf8, headers, topic, limits, from, anchors, i, error)
    ensures RangeErrorAt(d, utf8, headers, topic, limits, from, anchors, i, error)
  {
    RangeFitsIsAccepted(d, utf8, headers, topic, limits, from, anchors[..i]);
    hide RangeAccepted, RangeFits, Validate, WellFormedAnchor;
    ValidAnchorIsWellFormed(utf8, anchors[i].anchor, limits);
  }

  method ValidateAnchorRange(d: Digest, utf8: Utf8, headers: HeaderResolver, topic: seq<byte>, limits: Limits,
                             from: uint32, anchors: seq<StoredAnchor>)
    returns (r: Result<seq<CanonicalHeader>, RangeError>)
    ensures r.Success? <==> RangeAccepted(d, utf8, headers, topic, limits, from, anchors)
    ensures r.Success? ==> |r.value| == |anchors|
    ensures r.Failure? ==> exists i :: RangeFailsAt(d, utf8, headers, topic, limits, from, anchors, i, r.error)
    ensures r.Success? <==> exists found :: RangeFits(d, utf8, headers, topic, limits, from, anchors, found)
    ensures r.Success? ==> RangeFits(d, utf8, headers, topic, limits, from, anchors, r.value)
    ensures r.Failure? ==> exists i :: RangeErrorAt(d, utf8, headers, topic, limits, from, anchors, i, r.error)
    ensures r.Success? ==>
              forall i :: 0 <= i < |anchors| ==> headers(anchors[i].anchor.blockHeight) == Some(r.value[i])
  {
    hide RangeFits, RangeErrorAt, WellFormedAnchor, Validate, HashTACStep;
    RangeFitsIsAccepted(d, utf8, headers, topic, limits, from, anchors);
    var found: seq<CanonicalHeader> := [];
    var i := 0;
    while i < |anchors|
      invariant 0 <= i <= |anchors| && |found| == i
      invariant RangeAccepted(d, utf8, headers, topic, limits, from, anchors[..i])
      invariant forall k :: 0 <= k < i ==> headers(anchors[k].anchor.blockHeight) == Some(found[k])
    {
      var anchor := anchors[i].anchor;
      if anchor.blockHeight != from + i {
        RangeFailureIsAnError(d, utf8, headers, topic, limits, from, anchors, i, RangeInvalidData);
        return Failure(RangeInvalidData);
      }
      var header := ValidateAnchor(utf8, headers, topic, limits, anchor);
      if header.Failure? {
        RangeFailureIsAnError(d, utf8, headers, topic, limits, from, anchors, i, header.error);
        return Failure(header.error);
      }
      found := found + [header.value];
      if i > 0 && anchors[i].tac != HashTACStep(d, anchors[i - 1].tac, anchor.blockHash, anchor.basmRoot) {
        RangeFailureIsAnError(d, utf8, headers, topic, limits, from, anchors, i, RangeInvalidData);
        return Failure(RangeInvalidData);
      }
      i := i + 1;
    }
    assert anchors[..|anchors|] == anchors;
    RangeFitsWhenAccepted(d, utf8, headers, topic, limits, from, anchors, found);
    return Success(found);
  }

  function Bare(anchors: seq<StoredAnchor>): (r: seq<TopicBlockAnchor>)
    ensures |r| == |anchors|
    ensures forall i :: 0 <= i < |r| ==> r[i] == anchors[i].anchor
  {
    if anchors == [] then [] else Bare(anchors[..|anchors| - 1]) + [anchors[|anchors| - 1].anchor]
  }

  lemma FrontAccepted(d: Digest, utf8: Utf8, headers: HeaderResolver, topic: seq<byte>, limits: Limits, from: uint32,
                      anchors: seq<StoredAnchor>, n: nat)
    requires RangeAccepted(d, utf8, headers, topic, limits, from, anchors) && n <= |anchors|
    ensures RangeAccepted(d, utf8, headers, topic, limits, from, anchors[..n])
  {
    hide ValidateAnchor, HashTACStep;
    var front := anchors[..n];
    forall i | 0 < i < n
      ensures front[i].tac == HashTACStep(d, front[i - 1].tac, front[i].anchor.blockHash, front[i].anchor.basmRoot)
    {
      assert anchors[i].tac == HashTACStep(d, anchors[i - 1].tac, anchors[i].anchor.blockHash, anchors[i].anchor.basmRoot);
    }
  }

  /**
   An accepted range that starts where a chain of its topic expects the next anchor, and whose first cumulative value
   steps from the chain's, extends the chain: appending every anchor succeeds and reaches the stored value.
   */
  lemma {:induction false} RangeExtendsChain(d: Digest, utf8: Utf8, headers: HeaderResolver, c: Chain, from: uint32,
                                             anchors: seq<StoredAnchor>)
    requires RangeAccepted(d, utf8, headers, c.topic, c.limits, from, anchors) && anchors != []
    requires ExpectedHeight(c) == Some(from)
    requires anchors[0].tac == HashTACStep(d, c.tac, anchors[0].anchor.blockHash, anchors[0].anchor.basmRoot)
    ensures AppendAll(d, utf8, c, Bare(anchors)).Success?
    ensures Tip(AppendAll(d, utf8, c, Bare(anchors)).value) ==
            (anchors[|anchors| - 1].anchor.blockHeight, anchors[|anchors| - 1].tac, true)
    ensures AppendAll(d, utf8, c, Bare(anchors)).value.topic == c.topic
    ensures AppendAll(d, utf8, c, Bare(anchors)).value.limits == c.limits
    decreases |anchors|
  {
    hide Validate, HashTACStep;
    var n := |anchors| - 1;
    assert Bare(anchors)[..n] == Bare(anchors[..n]);
    assert ValidateAnchor(utf8, headers, c.topic, c.limits, anchors[n].anchor).Success?;
    if n > 0 {
      FrontAccepted(d, utf8, headers, c.topic, c.limits, from, anchors, n);
      RangeExtendsChain(d, utf8, headers, c, from, anchors[..n]);
    } else {
      assert AppendAll(d, utf8, c, Bare(anchors[..n])) == Success(c);
    }
  }
}
