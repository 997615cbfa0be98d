/** The binary form of topic block anchors (pkg/core/basm/wire.go). */
module AnchorCodec {
  import opened Anchors
  import opened Bytes
  import opened Wrappers
  import opened WireReader

  function EncodeAnchorBinary(utf8: Utf8, anchor: TopicBlockAnchor, limits: Limits): Result<seq<byte>, BasmError> {
    var error := Validate(utf8, anchor, limits);
    if error.Some? then Failure(error.value) else Success(AnchorBytes(anchor))
  }

  function AnchorBytes(anchor: TopicBlockAnchor): seq<byte>
    requires |anchor.topic| < TwoTo64
  {
    CompactSize(|anchor.topic|) + (anchor.topic + (ToLittleEndian(anchor.blockHeight, 4) +
      (anchor.blockHash + (anchor.basmRoot + CompactSize(anchor.admittedCount)))))
  }

  /** The fields behind the topic, which is read and checked first. */
  function ParseAnchorTail(topic: seq<byte>, s: seq<byte>): Parse<TopicBlockAnchor> {
    var height :- Take(s, 4);
    var blockHash :- Take(height.rest, HashSize);
    var root :- Take(blockHash.rest, HashSize);
    var count :- ParseCompactSize(root.rest);
    var heightValue := FromLittleEndian(height.value);
    if heightValue < TwoTo32 && count.value < TwoTo64
    then Success(Parsed(TopicBlockAnchor(topic, heightValue, blockHash.value, root.value, count.value), count.rest))
    else Failure(InvalidInput)
  }

  /** Every step of decoding, with the error each one reports. */
  function DecodeAnchor(utf8: Utf8, data: seq<byte>, limits: Limits): Result<TopicBlockAnchor, BasmError> {
    if !LimitsValid(limits) then Failure(InvalidInput)
    else
      var length :- ParseCompactSize(data);
      if length.value == 0 || length.value > limits.maxTopicBytes || length.value > |length.rest|
      then Failure(LimitExceeded)
      else
        var topic :- Take(length.rest, length.value);
        if !utf8(topic.value) then Failure(InvalidInput)
        else
          var anchor :- ParseAnchorTail(topic.value, topic.rest);
          if anchor.rest != [] then Failure(InvalidInput)
          else
            var error := Validate(utf8, anchor.value, limits);
            if error.Some? then Failure(error.value) else Success(anchor.value)
  }

  method DecodeAnchorBinary(utf8: Utf8, data: seq<byte>, limits: Limits) returns (r: Result<TopicBlockAnchor, BasmError>)
    ensures r == DecodeAnchor(utf8, data, limits)
  {
    hide FromLittleEndian, ParseCompactSize, Validate;
    if !LimitsValid(limits) {
      return Failure(InvalidInput);
    }
    var reader := new BoundedWireReader(data);
    var topicLength :- reader.CompactSizeField();
    if topicLength == 0 || topicLength > limits.maxTopicBytes || topicLength > reader.Remaining() {
      return Failure(LimitExceeded);
    }
    var topicBytes := reader.Bytes(topicLength);
    var topic := topicBytes.value;
    if !utf8(topic) {
      return Failure(InvalidInput);
    }
    var height :- reader.Bytes(4);
    var blockHash :- reader.Bytes(HashSize);
    var root :- reader.Bytes(HashSize);
    ghost var s := reader.Rest();
    var count :- reader.CompactSizeField();
    CompactSizeInverts(s);
    if reader.Remaining() != 0 {
      FourBytesFit(height);
      return Failure(InvalidInput);
    }
    FourBytesFit(height);
    var anchor := TopicBlockAnchor(topic, FromLittleEndian(height), blockHash, root, count);
    var error := Validate(utf8, anchor, limits);
    if error.Some? {
      return Failure(error.value);
    }
    return Success(anchor);
  }

  lemma TailInverts(a: TopicBlockAnchor)
    ensures ParseAnchorTail(a.topic, ToLittleEndian(a.blockHeight, 4) +
      (a.blockHash + (a.basmRoot + CompactSize(a.admittedCount)))) == Success(Parsed(a, []))
  {
    hide FromLittleEndian, ToLittleEndian, ParseCompactSize, CompactSize;
    var height := ToLittleEndian(a.blockHeight, 4);
    var blockHash: seq<byte>, root: seq<byte> := a.blockHash, a.basmRoot;
    var count := CompactSize(a.admittedCount);
    TakeInverts(height, blockHash + (root + count));
    TakeInverts(blockHash, root + count);
    TakeInverts(root, count);
    ParseCompactSizeInverts(a.admittedCount, []);
    assert count + [] == count;
    Pow256Values();
    FromToLittleEndian(a.blockHeight, 4);
  }

  /** Decoding recovers every anchor that can be encoded. */
  lemma DecodeEncode(utf8: Utf8, a: TopicBlockAnchor, limits: Limits)
    requires Validate(utf8, a, limits) == None
    ensures DecodeAnchor(utf8, EncodeAnchorBinary(utf8, a, limits).value, limits) == Success(a)
  {
    hide CompactSize, ParseCompactSize;
    var tail := ToLittleEndian(a.blockHeight, 4) + (a.blockHash + (a.basmRoot + CompactSize(a.admittedCount)));
    ParseCompactSizeInverts(|a.topic|, a.topic + tail);
    TakeInverts(a.topic, tail);
    TailInverts(a);
  }

  lemma TailBytes(topic: seq<byte>, s: seq<byte>)
    requires ParseAnchorTail(topic, s).Success?
    ensures var p := ParseAnchorTail(topic, s).value;
      p.value.topic == topic &&
      s == ToLittleEndian(p.value.blockHeight, 4) +
        (p.value.blockHash + (p.value.basmRoot + (CompactSize(p.value.admittedCount) + p.rest)))
  {
    hide FromLittleEndian, ToLittleEndian, ParseCompactSize, CompactSize;
    ToFromLittleEndian(s[..4]);
    CompactSizeInverts(s[4..][32..][32..]);
    assert s == s[..4] + (s[4..][..32] + (s[4..][32..][..32] + s[4..][32..][32..]));
  }

  /** An accepted encoding is the one its anchor has: no anchor has two. */
  lemma EncodeDecode(utf8: Utf8, data: seq<byte>, limits: Limits)
    requires DecodeAnchor(utf8, data, limits).Success?
    ensures EncodeAnchorBinary(utf8, DecodeAnchor(utf8, data, limits).value, limits) == Success(data)
  {
    hide CompactSize, ParseCompactSize, ToLittleEndian, FromLittleEndian;
    CompactSizeInverts(data);
    var length := ParseCompactSize(data).value;
    var topic := Take(length.rest, length.value).value;
    TailBytes(topic.value, topic.rest);
    var a := DecodeAnchor(utf8, data, limits).value;
    var count := CompactSize(a.admittedCount);
    assert count + [] == count;
    assert length.rest == topic.value + topic.rest;
  }
}
