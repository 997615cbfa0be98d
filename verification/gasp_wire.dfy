/** The binary messages of GASP (pkg/core/gasp/wire.go). */
module GaspWire {
  import opened Anchors
  import opened Bytes
  import opened Wrappers

  /** The error sentinels, and the panic of a call whose int arithmetic wrapped past the check of a length. */
  datatype WireError = EmptyData | UnsupportedVersion | TooShort | InvalidVarint | TrailingBytes | Panics

  type Parse<+T> = Result<Parsed<T>, WireError>

  const WireVersion: byte := 0

  const MaxUint32: nat := 0xFFFF_FFFF

  /** Byte slices are shorter than this: their length is a Go int. */
  const Addressable: nat := 0x8000_0000_0000_0000

  datatype Outpoint = Outpoint(txid: Hash, index: uint32)

  datatype Input = Input(hash: seq<byte>)

  /** Pointers, byte slices and the input map may be nil. */
  datatype Node = Node(
    graphID: Option<Outpoint>, rawTx: Option<seq<byte>>, outputIndex: uint32, proof: Option<seq<byte>>,
    txMetadata: seq<byte>, outputMetadata: seq<byte>, inputs: Option<map<seq<byte>, Option<Input>>>)

  /** A score is the bit pattern of its float64. */
  datatype Output = Output(txid: Hash, outputIndex: uint32, score: uint64)

  /** The metadata flag of each requested outpoint; its pointer may be nil. */
  datatype NodeResponse = NodeResponse(requestedInputs: map<Outpoint, Option<bool>>)

  // Varints

  function Uvarint(value: nat): (r: seq<byte>)
    ensures |r| >= 1
  {
    if value < 128 then [value] else [value % 128 + 128] + Uvarint(value / 128)
  }

  /** Reads byte number i of a varint onwards; the tenth byte may only be 0 or 1 and no eleventh is read. */
  function ReadUvarint(s: seq<byte>, i: nat := 0): Parse<nat> {
    if s == [] || i == 10 then Failure(InvalidVarint)
    else if s[0] < 128 then
      if i == 9 && s[0] > 1 then Failure(InvalidVarint) else Success(Parsed(s[0], s[1..]))
    else
      var high :- ReadUvarint(s[1..], i + 1);
      Success(Parsed(s[0] - 128 + 128 * high.value, high.rest))
  }

  /** The values that can still follow i bytes. */
  function UvarintLimit(i: nat): (r: nat)
    requires i <= 9
    ensures r >= 2
    decreases 9 - i
  {
    if i == 9 then 2 else 128 * UvarintLimit(i + 1)
  }

  lemma UvarintLimitIs64Bits()
    ensures UvarintLimit(0) == TwoTo64
  {
    assert UvarintLimit(6) == 128 * (128 * (128 * 2));
    assert UvarintLimit(3) == 128 * (128 * (128 * UvarintLimit(6)));
  }

  lemma {:induction false} ReadUvarintInverts(value: nat, rest: seq<byte>, i: nat)
    requires i <= 9 && value < UvarintLimit(i)
    ensures ReadUvarint(Uvarint(value) + rest, i) == Success(Parsed(value, rest))
    decreases 9 - i
  {
    var s := Uvarint(value) + rest;
    if value < 128 {
      assert s[1..] == rest;
    } else {
      ReadUvarintInverts(value / 128, rest, i + 1);
      assert s[1..] == Uvarint(value / 128) + rest;
    }
  }

  /** Varints have no shortest-form rule, so a message has other encodings too: zero is also the bytes 128 and 0. */
  lemma PaddedVarintIsAccepted()
    ensures ReadUvarint([128, 0]) == ReadUvarint(Uvarint(0)) == Success(Parsed(0, []))
  {
    assert [128, 0][1..] == [0];
    assert ReadUvarint([0], 1) == Success(Parsed(0, []));
  }

  // Lengths as 64-bit ints

  /** The int that 64-bit arithmetic leaves of x. */
  function Wrap(x: int): int {
    (x + Addressable) % TwoTo64 - Addressable
  }

  lemma WrapValues(x: int)
    ensures 0 - Addressable <= x < Addressable ==> Wrap(x) == x
    ensures Addressable <= x < TwoTo64 + Addressable ==> Wrap(x) == x - TwoTo64
  {
  }

  /** The check of a field's length: past the end, as far as the sum does not wrap. */
  predicate PastEnd(offset: int, size: int, end: int) {
    Wrap(offset + Wrap(size)) > end
  }

  /** The check is about the true sum exactly as long as that fits an int; beyond, a size below 2^64 passes it. */
  lemma PastEndIsExact(offset: nat, size: nat, end: nat)
    requires offset <= end < Addressable && size < TwoTo64
    ensures PastEnd(offset, size, end) <==> end < offset + size < Addressable
  {
    WrapValues(size);
    WrapValues(offset + size);
    WrapValues(offset + size - TwoTo64);
  }

  /** Converting a count first changes the sum by a multiple of 2^64 only: the check is about the true sum modulo 2^64. */
  lemma PastEndOfProduct(offset: nat, count: nat, size: nat, end: nat)
    requires count < TwoTo64 && end < Addressable
    ensures PastEnd(offset, Wrap(count) * size, end) <==> end < (offset + count * size) % TwoTo64 < Addressable
  {
    hide Wrap;
    var product := Wrap(count) * size;
    var sum := offset + Wrap(product);
    var j := WrapTurns(count);
    var k := WrapTurns(product);
    var l := WrapTurns(sum);
    var turns := j * size + k + l;
    assert product == count * size - j * size * TwoTo64 by {
      Distribute(count, j, size);
    }
    assert Wrap(sum) == offset + count * size - turns * TwoTo64;
    SameRemainder(offset + count * size, turns);
    RemainderOfInt(Wrap(sum));
  }

  lemma Distribute(count: int, j: int, size: int)
    ensures (count - j * TwoTo64) * size == count * size - j * size * TwoTo64
  {
  }

  lemma RemainderOfInt(x: int)
    requires 0 - Addressable <= x < Addressable
    ensures x % TwoTo64 == if x < 0 then x + TwoTo64 else x
  {
  }

  /** How often 2^64 is taken off. */
  lemma WrapTurns(x: int) returns (k: int)
    ensures Wrap(x) == x - k * TwoTo64 && 0 - Addressable <= Wrap(x) < Addressable
  {
    k := (x + Addressable) / TwoTo64;
  }

  lemma SameRemainder(x: int, k: int)
    ensures (x - k * TwoTo64) % TwoTo64 == x % TwoTo64
  {
  }

  lemma {:induction false} ReadUvarintBound(s: seq<byte>, i: nat)
    requires i <= 9 && ReadUvarint(s, i).Success?
    ensures ReadUvarint(s, i).value.value < UvarintLimit(i)
    decreases 9 - i
  {
    if i < 9 && s[0] >= 128 {
      ReadUvarintBound(s[1..], i + 1);
    }
  }

  // Byte fields

  function ByteField(field: seq<byte>): seq<byte> {
    Uvarint(|field|) + field
  }

  /** Reads a field from the tail s of data with `end` bytes; a length that wraps past the check panics. */
  function ReadByteField(s: seq<byte>, end: nat): Parse<seq<byte>> {
    var length :- ReadUvarint(s);
    if PastEnd(end - |length.rest|, length.value, end) then Failure(TooShort)
    else if length.value > |length.rest| then Failure(Panics)
    else Success(Parsed(length.rest[..length.value], length.rest[length.value..]))
  }

  /** Lengths that fit are read, others are too short, unless offset and length together leave the range of int. */
  lemma ReadByteFieldOutcome(s: seq<byte>, end: nat)
    requires ReadUvarint(s).Success? && |s| <= end < Addressable
    ensures var length := ReadUvarint(s).value;
      ReadByteField(s, end) ==
        if length.value <= |length.rest| then Success(Parsed(length.rest[..length.value], length.rest[length.value..]))
        else if end - |length.rest| + length.value < Addressable then Failure(TooShort)
        else Failure(Panics)
  {
    hide PastEnd, ReadUvarint;
    ReadUvarintBound(s, 0);
    UvarintLimitIs64Bits();
    ReadUvarintLeavesTail(s, 0);
    var length := ReadUvarint(s).value;
    PastEndIsExact(end - |length.rest|, length.value, end);
  }

  lemma ReadByteFieldInverts(field: seq<byte>, rest: seq<byte>, end: nat)
    requires |ByteField(field) + rest| <= end < Addressable
    ensures ReadByteField(ByteField(field) + rest, end) == Success(Parsed(field, rest))
  {
    hide Uvarint, ReadUvarint, ReadByteField;
    UvarintLimitIs64Bits();
    ReadUvarintInverts(|field|, field + rest, 0);
    assert ByteField(field) + rest == Uvarint(|field|) + (field + rest);
    ReadByteFieldOutcome(ByteField(field) + rest, end);
  }

  // Nodes

  function BytesOf(slice: Option<seq<byte>>): seq<byte> {
    if slice.None? then [] else slice.value
  }

  function SliceOf(field: seq<byte>): Option<seq<byte>> {
    if field == [] then None else Some(field)
  }

  function InputsOf(n: Node): map<seq<byte>, Option<Input>> {
    if n.inputs.None? then map[] else n.inputs.value
  }

  /** A sequence that visits every key of a map once. */
  ghost predicate Visits<K(!new)>(order: seq<K>, keys: set<K>) {
    && (forall k :: k in order <==> k in keys)
    && (forall i, j :: 0 <= i < j < |order| ==> order[i] != order[j])
  }

  function OutpointBytes(outpoint: Outpoint): (r: seq<byte>)
    ensures |r| == 36
  {
    var txid: seq<byte> := outpoint.txid;
    txid + ToLittleEndian(outpoint.index, 4)
  }

  function GraphOutpoint(graphID: Option<Outpoint>): Outpoint {
    if graphID.None? then Outpoint(ZeroHash, 0) else graphID.value
  }

  function KeysBytes(keys: seq<seq<byte>>): seq<byte> {
    if keys == [] then [] else ByteField(keys[0]) + KeysBytes(keys[1..])
  }

  function NodeHead(n: Node): seq<byte> {
    OutpointBytes(GraphOutpoint(n.graphID)) + ToLittleEndian(n.outputIndex, 4)
  }

  /** The bytes of a node up to its inputs, and some bytes behind them. */
  function NodeBytesBefore(n: Node, inputs: seq<byte>): seq<byte> {
    [WireVersion] + (NodeHead(n) + (ByteField(BytesOf(n.rawTx)) + (ByteField(BytesOf(n.proof)) +
      (ByteField(n.txMetadata) + (ByteField(n.outputMetadata) + inputs)))))
  }

  function InputsBytes(order: seq<seq<byte>>): seq<byte> {
    Uvarint(|order|) + KeysBytes(order)
  }

  /** The bytes of a node whose input keys are visited in the given order. */
  function NodeBytes(n: Node, order: seq<seq<byte>>): seq<byte> {
    NodeBytesBefore(n, InputsBytes(order))
  }

  lemma {:induction false} KeysBytesAppend(keys: seq<seq<byte>>, key: seq<byte>)
    ensures KeysBytes(keys + [key]) == KeysBytes(keys) + ByteField(key)
  {
    if keys == [] {
      assert [key][1..] == [];
      assert KeysBytes([key]) == ByteField(key) + [];
      assert [] + [key] == [key];
    } else {
      KeysBytesAppend(keys[1..], key);
      assert (keys + [key])[1..] == keys[1..] + [key];
    }
  }

  lemma {:induction false} VisitsLength<K(!new)>(order: seq<K>, keys: set<K>)
    requires Visits(order, keys)
    ensures |order| == |keys|
  {
    if order == [] {
      assert keys == {};
    } else {
      var last := order[|order| - 1];
      forall k
        ensures k in order[..|order| - 1] <==> k in keys - {last}
      {
        if k in keys - {last} {
          var i :| 0 <= i < |order| && order[i] == k;
          assert order[..|order| - 1][i] == k;
        }
      }
      VisitsLength(order[..|order| - 1], keys - {last});
    }
  }

  /** Visits the input keys in an arbitrary order. */
  method SerializeNode(n: Node) returns (buf: seq<byte>)
    ensures exists order :: Visits(order, InputsOf(n).Keys) && buf == NodeBytes(n, order)
  {
    hide Uvarint, ByteField;
    var inputs := InputsOf(n);
    var head := [WireVersion] + NodeHead(n);
    var fields := ByteField(BytesOf(n.rawTx));
    fields := fields + ByteField(BytesOf(n.proof));
    fields := fields + ByteField(n.txMetadata);
    fields := fields + ByteField(n.outputMetadata);
    ghost var front := head + fields + Uvarint(|inputs|);
    buf := head + fields + Uvarint(|inputs|);
    ghost var order: seq<seq<byte>> := [];
    var left := inputs.Keys;
    while left != {}
      invariant left <= inputs.Keys
      invariant Visits(order, inputs.Keys - left)
      invariant buf == front + KeysBytes(order)
    {
      var hash :| hash in left;
      KeysBytesAppend(order, hash);
      buf := buf + ByteField(hash);
      order := order + [hash];
      left := left - {hash};
    }
    VisitsLength(order, inputs.Keys);
    assert buf == NodeBytes(n, order);
  }

  function ReadKeys(s: seq<byte>, count: nat, end: nat): Parse<seq<seq<byte>>>
    decreases count
  {
    if count == 0 then Success(Parsed([], s))
    else
      var first :- ReadByteField(s, end);
      var others :- ReadKeys(first.rest, count - 1, end);
      Success(Parsed([first.value] + others.value, others.rest))
  }

  function InputMap(keys: seq<seq<byte>>): map<seq<byte>, Option<Input>> {
    map key | key in keys :: Some(Input(key))
  }

  function ReadInputs(s: seq<byte>, end: nat): Parse<Option<map<seq<byte>, Option<Input>>>> {
    var count :- ReadUvarint(s);
    if count.value > MaxUint32 then Failure(TooShort)
    else if count.value == 0 then Success(Parsed(None, count.rest))
    else
      var keys :- ReadKeys(count.rest, count.value, end);
      Success(Parsed(Some(InputMap(keys.value)), keys.rest))
  }

  function ReadOutpoint(s: seq<byte>): Outpoint
    requires |s| >= 36
  {
    FourBytesFit(s[32..36]);
    Outpoint(s[..32], FromLittleEndian(s[32..36]))
  }

  function CheckVersion(data: seq<byte>): Parse<()> {
    if data == [] then Failure(EmptyData)
    else if data[0] != WireVersion then Failure(UnsupportedVersion)
    else Success(Parsed((), data[1..]))
  }

  /** What a decoded node is, with the error of each step. */
  function NodeOf(data: seq<byte>): Result<Node, WireError> {
    var body :- CheckVersion(data);
    if |body.rest| < 40 then Failure(TooShort)
    else
      FourBytesFit(body.rest[36..40]);
      var rawTx :- ReadByteField(body.rest[40..], |data|);
      var proof :- ReadByteField(rawTx.rest, |data|);
      var txMetadata :- ReadByteField(proof.rest, |data|);
      var outputMetadata :- ReadByteField(txMetadata.rest, |data|);
      var inputs :- ReadInputs(outputMetadata.rest, |data|);
      if inputs.rest != [] then Failure(TrailingBytes)
      else
        Success(Node(Some(ReadOutpoint(body.rest)), SliceOf(rawTx.value), FromLittleEndian(body.rest[36..40]),
                     SliceOf(proof.value), txMetadata.value, outputMetadata.value, inputs.value))
  }

  ghost function PutBefore(keys: seq<seq<byte>>, p: Parse<seq<seq<byte>>>): Parse<seq<seq<byte>>> {
    if p.Failure? then p else Success(Parsed(keys + p.value.value, p.value.rest))
  }

  lemma ReadKeysStep(whole: Parse<seq<seq<byte>>>, keys: seq<seq<byte>>, s: seq<byte>, count: nat, end: nat)
    requires whole == PutBefore(keys, ReadKeys(s, count, end))
    ensures count == 0 ==> whole == Success(Parsed(keys, s))
    ensures count > 0 ==> var first := ReadByteField(s, end);
      if first.Failure? then whole == Failure(first.error)
      else whole == PutBefore(keys + [first.value.value], ReadKeys(first.value.rest, count - 1, end))
  {
    hide ReadByteField;
    if count == 0 {
      assert keys + [] == keys;
    } else if ReadByteField(s, end).Success? {
      var first := ReadByteField(s, end).value;
      var others := ReadKeys(first.rest, count - 1, end);
      if others.Success? {
        assert keys + ([first.value] + others.value.value) == keys + [first.value] + others.value.value;
      }
    }
  }

  method DeserializeNodeInputs(data: seq<byte>, start: nat)
    returns (r: Result<Option<map<seq<byte>, Option<Input>>>, WireError>, offset: nat)
    requires start <= |data|
    ensures offset <= |data|
    ensures var p := ReadInputs(data[start..], |data|);
      if p.Success? then r == Success(p.value.value) && data[offset..] == p.value.rest else r == Failure(p.error)
  {
    hide ReadUvarint, ReadKeys, ReadByteField, PutBefore;
    offset := start;
    var count := ReadUvarint(data[offset..]);
    if count.Failure? {
      return Failure(count.error), offset;
    }
    ReadUvarintLeavesTail(data[offset..], 0);
    offset := |data| - |count.value.rest|;
    if count.value.value > MaxUint32 {
      return Failure(TooShort), offset;
    }
    if count.value.value == 0 {
      return Success(None), offset;
    }
    var inputs: map<seq<byte>, Option<Input>> := map[];
    ghost var keys: seq<seq<byte>> := [];
    ghost var whole := ReadKeys(data[offset..], count.value.value, |data|);
    assert whole == PutBefore([], whole) by {
      NothingBefore(whole);
    }
    var i := 0;
    while i < count.value.value
      invariant 0 <= i <= count.value.value && offset <= |data|
      invariant whole == PutBefore(keys, ReadKeys(data[offset..], count.value.value - i, |data|))
      invariant inputs == InputMap(keys)
    {
      ReadKeysStep(whole, keys, data[offset..], count.value.value - i, |data|);
      var hash := ReadByteField(data[offset..], |data|);
      if hash.Failure? {
        return Failure(hash.error), offset;
      }
      ReadByteFieldLeavesTail(data[offset..], |data|);
      offset := |data| - |hash.value.rest|;
      inputs := inputs[hash.value.value := Some(Input(hash.value.value))];
      keys := keys + [hash.value.value];
      i := i + 1;
    }
    ReadKeysStep(whole, keys, data[offset..], 0, |data|);
    return Success(Some(inputs)), offset;
  }

  lemma NothingBefore(p: Parse<seq<seq<byte>>>)
    ensures PutBefore([], p) == p
  {
    if p.Success? {
      assert [] + p.value.value == p.value.value;
    }
  }

  lemma {:induction false} ReadUvarintLeavesTail(s: seq<byte>, i: nat)
    requires ReadUvarint(s, i).Success?
    ensures var rest := ReadUvarint(s, i).value.rest; |rest| < |s| && rest == s[|s| - |rest|..]
  {
    if s[0] >= 128 {
      ReadUvarintLeavesTail(s[1..], i + 1);
    }
  }

  lemma ReadByteFieldLeavesTail(s: seq<byte>, end: nat)
    requires ReadByteField(s, end).Success?
    ensures var rest := ReadByteField(s, end).value.rest; |rest| < |s| && rest == s[|s| - |rest|..]
  {
    hide ReadUvarint;
    ReadUvarintLeavesTail(s, 0);
  }

  method ReadField(data: seq<byte>, start: nat) returns (r: Result<seq<byte>, WireError>, offset: nat)
    requires start <= |data|
    ensures offset <= |data|
    ensures var p := ReadByteField(data[start..], |data|);
      if p.Success? then r == Success(p.value.value) && data[offset..] == p.value.rest else r == Failure(p.error)
  {
    hide ReadByteField;
    var field := ReadByteField(data[start..], |data|);
    if field.Failure? {
      return Failure(field.error), start;
    }
    ReadByteFieldLeavesTail(data[start..], |data|);
    return Success(field.value.value), |data| - |field.value.rest|;
  }

  method DeserializeNode(data: seq<byte>) returns (r: Result<Node, WireError>)
    ensures r == NodeOf(data)
  {
    hide ReadByteField, ReadInputs, FromLittleEndian;
    var version :- CheckVersion(data);
    var offset := 1;
    if |data| - offset < 40 {
      return Failure(TooShort);
    }
    ghost var body := data[1..];
    var graphID := ReadOutpoint(data[offset..]);
    offset := offset + 36;
    assert data[offset..offset + 4] == body[36..40];
    FourBytesFit(data[offset..offset + 4]);
    var outputIndex := FromLittleEndian(data[offset..offset + 4]);
    offset := offset + 4;
    assert data[offset..] == body[40..];
    var field: Result<seq<byte>, WireError>;
    field, offset := ReadField(data, offset);
    var rawTx :- field;
    field, offset := ReadField(data, offset);
    var proof :- field;
    field, offset := ReadField(data, offset);
    var txMetadata :- field;
    field, offset := ReadField(data, offset);
    var outputMetadata :- field;
    var inputs;
    inputs, offset := DeserializeNodeInputs(data, offset);
    var inputMap :- inputs;
    if offset != |data| {
      return Failure(TrailingBytes);
    }
    return Success(Node(Some(graphID), SliceOf(rawTx), outputIndex, SliceOf(proof), txMetadata, outputMetadata, inputMap));
  }

  // The round trip of nodes

  /** A nil graph id becomes the zero outpoint, empty fields and inputs become nil, and an input's hash is its key. */
  function Normalised(n: Node): Node {
    var inputs := InputsOf(n);
    Node(Some(GraphOutpoint(n.graphID)), SliceOf(BytesOf(n.rawTx)), n.outputIndex, SliceOf(BytesOf(n.proof)),
         n.txMetadata, n.outputMetadata,
         if inputs == map[] then None else Some(map key | key in inputs :: Some(Input(key))))
  }

  lemma {:induction false} ReadKeysInverts(keys: seq<seq<byte>>, rest: seq<byte>, end: nat)
    requires |KeysBytes(keys) + rest| <= end < Addressable
    ensures ReadKeys(KeysBytes(keys) + rest, |keys|, end) == Success(Parsed(keys, rest))
    decreases |keys|
  {
    hide Uvarint, ReadByteField;
    if keys == [] {
      assert KeysBytes(keys) + rest == rest;
    } else {
      var behind := KeysBytes(keys[1..]) + rest;
      assert KeysBytes(keys) + rest == ByteField(keys[0]) + behind;
      ReadByteFieldInverts(keys[0], behind, end);
      ReadKeysInverts(keys[1..], rest, end);
      assert keys == [keys[0]] + keys[1..];
    }
  }

  lemma ReadInputsInverts(n: Node, order: seq<seq<byte>>, end: nat)
    requires Visits(order, InputsOf(n).Keys)
    requires |order| < TwoTo64 && |InputsBytes(order)| <= end < Addressable
    ensures ReadInputs(InputsBytes(order), end) ==
      if |InputsOf(n)| <= MaxUint32 then Success(Parsed(Normalised(n).inputs, [])) else Failure(TooShort)
  {
    hide Uvarint, ReadUvarint, KeysBytes, ReadKeys;
    var inputs := InputsOf(n);
    VisitsLength(order, inputs.Keys);
    assert |inputs.Keys| == |inputs|;
    UvarintLimitIs64Bits();
    ReadUvarintInverts(|order|, KeysBytes(order), 0);
    assert KeysBytes(order) + [] == KeysBytes(order);
    if |order| == 0 {
      assert KeysBytes(order) == [] by {
        EmptyKeys();
      }
    } else {
      assert order[0] in inputs;
      assert InputMap(order) == map key | key in inputs :: Some(Input(key));
      ReadKeysInverts(order, [], end);
    }
  }

  lemma EmptyKeys()
    ensures KeysBytes([]) == []
  {
  }

  lemma ReadOutpointInverts(outpoint: Outpoint, rest: seq<byte>)
    ensures ReadOutpoint(OutpointBytes(outpoint) + rest) == outpoint
  {
    hide ToLittleEndian, FromLittleEndian;
    var s := OutpointBytes(outpoint) + rest;
    assert s[32..36] == ToLittleEndian(outpoint.index, 4);
    Pow256Values();
    FromToLittleEndian(outpoint.index, 4);
  }

  lemma {:induction false} KeysBytesLength(keys: seq<seq<byte>>)
    ensures |KeysBytes(keys)| >= |keys|
  {
    hide Uvarint;
    if keys != [] {
      KeysBytesLength(keys[1..]);
    }
  }

  /** The fixed fields are read back whatever follows them. */
  lemma HeadInverts(n: Node, fields: seq<byte>)
    ensures var body := NodeHead(n) + fields;
      && |body| >= 40 && ReadOutpoint(body) == GraphOutpoint(n.graphID)
      && FromLittleEndian(body[36..40]) == n.outputIndex && body[40..] == fields
  {
    hide ToLittleEndian, FromLittleEndian;
    var body := NodeHead(n) + fields;
    var index := ToLittleEndian(n.outputIndex, 4);
    ReadOutpointInverts(GraphOutpoint(n.graphID), index + fields);
    assert body == OutpointBytes(GraphOutpoint(n.graphID)) + (index + fields);
    assert body[36..40] == index;
    Pow256Values();
    FromToLittleEndian(n.outputIndex, 4);
  }

  /** What a node's bytes decode to, whatever stands where its inputs should. */
  function NodeRead(n: Node, inputs: Parse<Option<map<seq<byte>, Option<Input>>>>): Result<Node, WireError> {
    var read :- inputs;
    if read.rest != [] then Failure(TrailingBytes) else Success(Normalised(n).(inputs := read.value))
  }

  /** The fields of a node are read back up to its inputs. */
  lemma FieldsInvert(n: Node, inputs: seq<byte>)
    requires |NodeBytesBefore(n, inputs)| < Addressable
    ensures var data := NodeBytesBefore(n, inputs); NodeOf(data) == NodeRead(n, ReadInputs(inputs, |data|))
  {
    hide Uvarint, ByteField, ReadByteField, ReadInputs, NodeHead, ReadOutpoint, FromLittleEndian;
    var end := |NodeBytesBefore(n, inputs)|;
    var outputMetadata := ByteField(n.outputMetadata) + inputs;
    var txMetadata := ByteField(n.txMetadata) + outputMetadata;
    var proof := ByteField(BytesOf(n.proof)) + txMetadata;
    var fields := ByteField(BytesOf(n.rawTx)) + proof;
    var body := NodeHead(n) + fields;
    assert ([WireVersion] + body)[1..] == body;
    HeadInverts(n, fields);
    ReadByteFieldInverts(BytesOf(n.rawTx), proof, end);
    ReadByteFieldInverts(BytesOf(n.proof), txMetadata, end);
    ReadByteFieldInverts(n.txMetadata, outputMetadata, end);
    ReadByteFieldInverts(n.outputMetadata, inputs, end);
  }

  /** Decoding recovers a node up to normalisation from every order its inputs are written in, when 32 bits count them. */
  lemma NodeRoundTrip(n: Node, order: seq<seq<byte>>)
    requires Visits(order, InputsOf(n).Keys) && |NodeBytes(n, order)| < Addressable
    ensures NodeOf(NodeBytes(n, order)) ==
      if |InputsOf(n)| <= MaxUint32 then Success(Normalised(n)) else Failure(TooShort)
  {
    hide Uvarint, ByteField, KeysBytes, ReadInputs, Visits, NodeHead, NodeOf;
    KeysBytesLength(order);
    FieldsInvert(n, InputsBytes(order));
    ReadInputsInverts(n, order, |NodeBytes(n, order)|);
  }

  // Which bytes the serializer writes

  /** The varint at the front of s ends with a byte that counts. */
  predicate ShortVarint(s: seq<byte>, i: nat := 0)
    requires ReadUvarint(s, i).Success?
  {
    var n := |s| - |ReadUvarint(s, i).value.rest|;
    ReadUvarintLeavesTail(s, i);
    n == 1 || s[n - 1] != 0
  }

  /** Of the encodings of a number that are accepted, the short one is the one that is written. */
  lemma {:induction false} ShortestVarint(s: seq<byte>, i: nat)
    requires ReadUvarint(s, i).Success?
    ensures var p := ReadUvarint(s, i).value; ShortVarint(s, i) <==> s == Uvarint(p.value) + p.rest
  {
    if s[0] < 128 {
      assert s == [s[0]] + s[1..];
    } else {
      var high := ReadUvarint(s[1..], i + 1).value;
      ShortestVarint(s[1..], i + 1);
      ShortVarintTail(s, i);
      hide ReadUvarint, ShortVarint;
      if high.value > 0 {
        LongUvarint(s[0], high.value, high.rest);
        assert s == [s[0]] + s[1..];
      }
    }
  }

  lemma LongUvarint(low: byte, high: nat, rest: seq<byte>)
    requires low >= 128 && high > 0
    ensures Uvarint(low - 128 + 128 * high) + rest == [low] + (Uvarint(high) + rest)
  {
    assert Uvarint(low - 128 + 128 * high) == [low] + Uvarint(high);
  }

  /** Behind a first byte that goes on, the rest is short unless it is a zero. */
  lemma ShortVarintTail(s: seq<byte>, i: nat)
    requires ReadUvarint(s, i).Success? && s[0] >= 128
    ensures var high := ReadUvarint(s[1..], i + 1).value; ShortVarint(s, i) <==> high.value > 0 && ShortVarint(s[1..], i + 1)
  {
    ReadUvarintLeavesTail(s[1..], i + 1);
    LastByte(s[1..], i + 1);
  }

  /** Only a varint that is a zero or not short ends with a zero. */
  lemma {:induction false} LastByte(s: seq<byte>, i: nat)
    requires ReadUvarint(s, i).Success?
    ensures var p := ReadUvarint(s, i).value;
      var n := |s| - |p.rest|;
      && 1 <= n <= |s|
      && (p.value == 0 ==> s[n - 1] == 0)
      && (n == 1 ==> s[0] == p.value)
  {
    if s[0] >= 128 {
      LastByte(s[1..], i + 1);
    }
  }

  lemma ShortestField(s: seq<byte>, end: nat)
    requires ReadByteField(s, end).Success?
    ensures var p := ReadByteField(s, end).value; ShortVarint(s) <==> s == ByteField(p.value) + p.rest
  {
    hide Uvarint, ReadUvarint, ShortVarint;
    ShortestVarint(s, 0);
    var length := ReadUvarint(s).value;
    var p := ReadByteField(s, end).value;
    assert length.rest == p.value + p.rest;
    assert ByteField(p.value) + p.rest == Uvarint(length.value) + length.rest;
  }

  predicate ShortKeys(s: seq<byte>, count: nat, end: nat)
    requires ReadKeys(s, count, end).Success?
    decreases count
  {
    count > 0 ==> ShortVarint(s) && ShortKeys(ReadByteField(s, end).value.rest, count - 1, end)
  }

  lemma {:induction false} ShortestKeys(s: seq<byte>, count: nat, end: nat)
    requires ReadKeys(s, count, end).Success? && |s| <= end < Addressable
    ensures var p := ReadKeys(s, count, end).value;
      |p.value| == count && (ShortKeys(s, count, end) <==> s == KeysBytes(p.value) + p.rest)
    decreases count
  {
    hide ByteField, ReadByteField, ShortVarint;
    var p := ReadKeys(s, count, end).value;
    if count == 0 {
      assert s == [] + s;
    } else {
      var first := ReadByteField(s, end).value;
      var others := ReadKeys(first.rest, count - 1, end).value;
      ShortestField(s, end);
      ReadByteFieldLeavesTail(s, end);
      ShortestKeys(first.rest, count - 1, end);
      assert p.value[1..] == others.value;
      assert KeysBytes(p.value) + p.rest == ByteField(first.value) + (KeysBytes(others.value) + p.rest);
      if s == KeysBytes(p.value) + p.rest {
        ReadByteFieldInverts(first.value, KeysBytes(others.value) + p.rest, end);
      }
    }
  }

  ghost predicate Distinct<T>(s: seq<T>) {
    forall i, j :: 0 <= i < j < |s| ==> s[i] != s[j]
  }

  /** Accepted inputs with shortest varints and no key twice. */
  ghost predicate InputsShortest(s: seq<byte>, end: nat)
    requires ReadInputs(s, end).Success?
  {
    var count := ReadUvarint(s).value;
    && ShortVarint(s)
    && ShortKeys(count.rest, count.value, end)
    && Distinct(ReadKeys(count.rest, count.value, end).value.value)
  }

  /** Accepted bytes with shortest varints and no input key twice. */
  ghost predicate NodeShortest(data: seq<byte>)
    requires NodeOf(data).Success?
  {
    var rawTx := data[41..];
    var proof := ReadByteField(rawTx, |data|).value.rest;
    var txMetadata := ReadByteField(proof, |data|).value.rest;
    var outputMetadata := ReadByteField(txMetadata, |data|).value.rest;
    var inputs := ReadByteField(outputMetadata, |data|).value.rest;
    && ShortVarint(rawTx) && ShortVarint(proof) && ShortVarint(txMetadata) && ShortVarint(outputMetadata)
    && InputsShortest(inputs, |data|)
  }

  /** Some node is serialized to these bytes, in some order of its inputs. */
  ghost predicate IsNodeEncoding(data: seq<byte>) {
    exists n: Node, order :: Visits(order, InputsOf(n).Keys) && data == NodeBytes(n, order)
  }

  lemma ShortInputsAreWritten(s: seq<byte>, end: nat)
    requires ReadInputs(s, end).Success? && ReadInputs(s, end).value.rest == [] && |s| <= end < Addressable
    requires InputsShortest(s, end)
    ensures var inputs := ReadInputs(s, end).value.value;
      exists order :: Visits(order, if inputs.None? then {} else inputs.value.Keys) && s == InputsBytes(order)
  {
    hide ReadUvarint, ReadKeys, ShortVarint, ShortKeys, KeysBytes, Uvarint;
    var count := ReadUvarint(s).value;
    ShortestVarint(s, 0);
    ReadUvarintLeavesTail(s, 0);
    NoKeys(count.rest, end);
    ShortestKeys(count.rest, count.value, end);
    var keys := ReadKeys(count.rest, count.value, end).value;
    assert KeysBytes(keys.value) + [] == KeysBytes(keys.value);
    assert Visits(keys.value, set key | key in keys.value) && s == InputsBytes(keys.value);
  }

  lemma NoKeys(s: seq<byte>, end: nat)
    ensures ReadKeys(s, 0, end) == Success(Parsed([], s))
  {
  }

  lemma HeadIsRead(data: seq<byte>)
    requires NodeOf(data).Success?
    ensures data == [WireVersion] + NodeHead(NodeOf(data).value) + data[41..]
  {
    hide ReadByteField, ReadInputs, ToLittleEndian, FromLittleEndian;
    ToFromLittleEndian(data[33..37]);
    ToFromLittleEndian(data[37..41]);
    assert data[1..][..32] == data[1..33] && data[1..][32..36] == data[33..37] && data[1..][36..40] == data[37..41];
  }

  lemma FieldIsRead(s: seq<byte>, end: nat)
    requires ReadByteField(s, end).Success? && ShortVarint(s)
    ensures var p := ReadByteField(s, end).value; s == ByteField(BytesOf(SliceOf(p.value))) + p.rest
    ensures |ReadByteField(s, end).value.rest| < |s|
  {
    hide ByteField, ReadByteField, ShortVarint;
    ShortestField(s, end);
    ReadByteFieldLeavesTail(s, end);
  }

  lemma ShortNodesAreWritten(data: seq<byte>)
    requires |data| < Addressable && NodeOf(data).Success? && NodeShortest(data)
    ensures IsNodeEncoding(data)
  {
    hide ReadByteField, ByteField, ReadInputs, ShortVarint, InputsShortest, InputsBytes, NodeHead, ReadUvarint, ReadKeys,
      FromLittleEndian, ReadOutpoint;
    var n := NodeOf(data).value;
    var rawTx := data[41..];
    var proof := ReadByteField(rawTx, |data|).value.rest;
    var txMetadata := ReadByteField(proof, |data|).value.rest;
    var outputMetadata := ReadByteField(txMetadata, |data|).value.rest;
    var inputs := ReadByteField(outputMetadata, |data|).value.rest;
    HeadIsRead(data);
    FieldIsRead(rawTx, |data|);
    FieldIsRead(proof, |data|);
    FieldIsRead(txMetadata, |data|);
    FieldIsRead(outputMetadata, |data|);
    ShortInputsAreWritten(inputs, |data|);
    var order :| Visits(order, InputsOf(n).Keys) && inputs == InputsBytes(order);
    assert data == NodeBytes(n, order) by {
      hide NodeOf, Visits;
    }
  }

  lemma FieldIsShort(field: seq<byte>, rest: seq<byte>, end: nat)
    requires |ByteField(field) + rest| <= end < Addressable
    ensures ReadByteField(ByteField(field) + rest, end) == Success(Parsed(field, rest)) && ShortVarint(ByteField(field) + rest)
  {
    hide ByteField, ReadByteField, ShortVarint;
    ReadByteFieldInverts(field, rest, end);
    ShortestField(ByteField(field) + rest, end);
  }

  lemma WrittenInputsAreShort(order: seq<seq<byte>>, end: nat)
    requires |InputsBytes(order)| <= end < Addressable && Distinct(order)
    requires ReadInputs(InputsBytes(order), end).Success?
    ensures InputsShortest(InputsBytes(order), end)
  {
    hide Uvarint, ReadUvarint, KeysBytes, ReadKeys, ShortVarint, ShortKeys;
    KeysBytesLength(order);
    UvarintLimitIs64Bits();
    ReadUvarintInverts(|order|, KeysBytes(order), 0);
    ShortestVarint(InputsBytes(order), 0);
    ReadKeysInverts(order, [], end);
    assert KeysBytes(order) + [] == KeysBytes(order);
    ShortestKeys(KeysBytes(order), |order|, end);
  }

  lemma FieldsAreShort(n: Node, inputs: seq<byte>)
    requires |NodeBytesBefore(n, inputs)| < Addressable && NodeOf(NodeBytesBefore(n, inputs)).Success?
    ensures var data := NodeBytesBefore(n, inputs);
      ReadInputs(inputs, |data|).Success? && (NodeShortest(data) <==> InputsShortest(inputs, |data|))
  {
    hide ReadByteField, ByteField, ReadInputs, ShortVarint, InputsShortest, NodeHead, FromLittleEndian, ReadOutpoint;
    var data := NodeBytesBefore(n, inputs);
    var end := |data|;
    var outputMetadata := ByteField(n.outputMetadata) + inputs;
    var txMetadata := ByteField(n.txMetadata) + outputMetadata;
    var proof := ByteField(BytesOf(n.proof)) + txMetadata;
    var fields := ByteField(BytesOf(n.rawTx)) + proof;
    HeadInverts(n, fields);
    assert data[41..] == fields by {
      assert data[1..] == NodeHead(n) + fields && data[41..] == data[1..][40..];
    }
    FieldIsShort(BytesOf(n.rawTx), proof, end);
    FieldIsShort(BytesOf(n.proof), txMetadata, end);
    FieldIsShort(n.txMetadata, outputMetadata, end);
    FieldIsShort(n.outputMetadata, inputs, end);
  }

  /** Accepted bytes are a node's own encoding exactly when their varints are shortest and no input key is repeated. */
  lemma NodeEncodingIsShortest(data: seq<byte>)
    requires |data| < Addressable && NodeOf(data).Success?
    ensures IsNodeEncoding(data) <==> NodeShortest(data)
  {
    hide NodeOf, NodeShortest, NodeBytesBefore, InputsBytes, ReadInputs, InputsShortest;
    if NodeShortest(data) {
      ShortNodesAreWritten(data);
    }
    if IsNodeEncoding(data) {
      var n: Node, order :| Visits(order, InputsOf(n).Keys) && data == NodeBytes(n, order);
      FieldsAreShort(n, InputsBytes(order));
      InputsFit(n, InputsBytes(order));
      WrittenInputsAreShort(order, |data|);
    }
  }

  /** Two different byte strings for every node without inputs: the count of its inputs is written as 0, or as 128 and 0. */
  lemma NodesHaveTwoEncodings(n: Node)
    requires InputsOf(n) == map[] && |NodeBytesBefore(n, [128, 0])| < Addressable
    ensures NodeBytesBefore(n, [128, 0]) != NodeBytes(n, [])
    ensures NodeOf(NodeBytesBefore(n, [128, 0])) == NodeOf(NodeBytes(n, [])) == Success(Normalised(n))
    ensures !IsNodeEncoding(NodeBytesBefore(n, [128, 0]))
  {
    hide NodeOf, NodeBytesBefore, NodeShortest, IsNodeEncoding;
    InputsFit(n, [0]);
    InputsFit(n, [128, 0]);
    assert InputsBytes([]) == [0];
    PaddedVarintIsAccepted();
    FieldsInvert(n, [0]);
    FieldsInvert(n, [128, 0]);
    FieldsAreShort(n, [128, 0]);
    NodeEncodingIsShortest(NodeBytesBefore(n, [128, 0]));
  }

  /** What stands behind the fields only adds its own length. */
  lemma InputsFit(n: Node, inputs: seq<byte>)
    ensures |NodeBytesBefore(n, inputs)| == |NodeBytesBefore(n, [])| + |inputs|
  {
    hide NodeHead, ByteField;
  }

  // Node responses

  function Flag(metadata: Option<bool>): bool {
    metadata == Some(true)
  }

  function EntryBytes(outpoint: Outpoint, metadata: Option<bool>): (r: seq<byte>)
    ensures |r| == 37
  {
    OutpointBytes(outpoint) + [if Flag(metadata) then 1 else 0]
  }

  function EntriesBytes(inputs: map<Outpoint, Option<bool>>, order: seq<Outpoint>): (r: seq<byte>)
    requires forall o :: o in order ==> o in inputs
    ensures |r| == 37 * |order|
  {
    if order == [] then [] else EntryBytes(order[0], inputs[order[0]]) + EntriesBytes(inputs, order[1..])
  }

  function NodeResponseBytes(r: NodeResponse, order: seq<Outpoint>): seq<byte>
    requires forall o :: o in order ==> o in r.requestedInputs
  {
    [WireVersion] + (Uvarint(|order|) + EntriesBytes(r.requestedInputs, order))
  }

  lemma {:induction false} EntriesBytesAppend(inputs: map<Outpoint, Option<bool>>, order: seq<Outpoint>, o: Outpoint)
    requires o in inputs && forall x :: x in order ==> x in inputs
    ensures EntriesBytes(inputs, order + [o]) == EntriesBytes(inputs, order) + EntryBytes(o, inputs[o])
    decreases |order|
  {
    hide EntryBytes;
    if order == [] {
      assert [o][1..] == [] && [] + [o] == [o];
      assert EntriesBytes(inputs, [o]) == EntryBytes(o, inputs[o]) + [];
    } else {
      EntriesBytesAppend(inputs, order[1..], o);
      assert (order + [o])[1..] == order[1..] + [o];
    }
  }

  method SerializeNodeResponse(r: NodeResponse) returns (buf: seq<byte>)
    ensures exists order :: Visits(order, r.requestedInputs.Keys) && buf == NodeResponseBytes(r, order)
  {
    hide Uvarint, EntryBytes;
    ghost var head := [WireVersion] + Uvarint(|r.requestedInputs|);
    buf := [WireVersion] + Uvarint(|r.requestedInputs|);
    ghost var order: seq<Outpoint> := [];
    var left := r.requestedInputs.Keys;
    while left != {}
      invariant left <= r.requestedInputs.Keys
      invariant Visits(order, r.requestedInputs.Keys - left)
      invariant buf == head + EntriesBytes(r.requestedInputs, order)
    {
      var outpoint :| outpoint in left;
      EntriesBytesAppend(r.requestedInputs, order, outpoint);
      buf := buf + EntryBytes(outpoint, r.requestedInputs[outpoint]);
      order := order + [outpoint];
      left := left - {outpoint};
    }
    VisitsLength(order, r.requestedInputs.Keys);
    assert buf == NodeResponseBytes(r, order);
  }

  /** Reads count entries behind those read already; a repeated outpoint keeps its last flag. */
  function ReadEntries(s: seq<byte>, count: nat, inputs: map<Outpoint, Option<bool>>): (map<Outpoint, Option<bool>>, seq<byte>)
    requires |s| >= 37 * count
    decreases count
  {
    if count == 0 then (inputs, s)
    else ReadEntries(s[37..], count - 1, inputs[ReadOutpoint(s) := Some(s[36] != 0)])
  }

  /** The response of a count that the bytes behind it hold. */
  function ReadResponse(count: Parsed<nat>): Result<NodeResponse, WireError>
    requires |count.rest| >= 37 * count.value
  {
    var (inputs, rest) := ReadEntries(count.rest, count.value, map[]);
    if rest != [] then Failure(TrailingBytes) else Success(NodeResponse(inputs))
  }

  function NodeResponseOf(data: seq<byte>): Result<NodeResponse, WireError> {
    var body :- CheckVersion(data);
    var count :- ReadUvarint(body.rest);
    var entries := Wrap(count.value);
    if PastEnd(|data| - |count.rest|, entries * 37, |data|) then Failure(TooShort)
    else if entries * 37 > |count.rest| then Failure(Panics)
    else ReadResponse(count.(value := if entries < 0 then 0 else entries))
  }

  method DeserializeNodeResponse(data: seq<byte>) returns (r: Result<NodeResponse, WireError>)
    ensures r == NodeResponseOf(data)
  {
    hide ReadUvarint, ReadOutpoint;
    var version :- CheckVersion(data);
    var count :- ReadUvarint(data[1..]);
    ReadUvarintLeavesTail(data[1..], 0);
    var offset := |data| - |count.rest|;
    assert data[offset..] == count.rest;
    var entries := Wrap(count.value);
    if PastEnd(offset, entries * 37, |data|) {
      return Failure(TooShort);
    }
    var inputs: map<Outpoint, Option<bool>> := map[];
    ghost var total := if entries < 0 then 0 else entries;
    ghost var whole := if total * 37 <= |count.rest| then ReadEntries(count.rest, total, inputs) else (inputs, []);
    ghost var start := offset;
    var i := 0;
    while i < entries
      invariant 0 <= i <= total && offset == start + i * 37 <= |data|
      invariant total * 37 <= |count.rest| ==> whole == ReadEntries(data[offset..], total - i, inputs)
    {
      if offset + 37 > |data| {
        return Failure(Panics);
      }
      var outpoint := ReadOutpoint(data[offset..]);
      assert data[offset..][37..] == data[offset + 37..];
      inputs := inputs[outpoint := Some(data[offset + 36] != 0)];
      offset := offset + 37;
      i := i + 1;
    }
    if offset != |data| {
      return Failure(TrailingBytes);
    }
    return Success(NodeResponse(inputs));
  }

  /** A response's outcome once its count is read: an entry count that wraps the sum can pass the check, and then the
      loop runs off the data, or does not run at all when the count itself is negative as an int. */
  lemma NodeResponseOutcome(data: seq<byte>, count: Parsed<nat>)
    requires data != [] && data[0] == WireVersion && |data| < Addressable && ReadUvarint(data[1..]) == Success(count)
    ensures var sum := |data| - |count.rest| + count.value * 37;
      NodeResponseOf(data) ==
        if |data| < sum % TwoTo64 < Addressable then Failure(TooShort)
        else if sum <= |data| then ReadResponse(count)
        else if count.value < Addressable then Failure(Panics)
        else if count.rest != [] then Failure(TrailingBytes)
        else Success(NodeResponse(map[]))
    ensures var sum := |data| - |count.rest| + count.value * 37;
      sum < Addressable ==> NodeResponseOf(data) == if sum > |data| then Failure(TooShort) else ReadResponse(count)
  {
    hide ReadUvarint, Wrap;
    ReadUvarintBound(data[1..], 0);
    UvarintLimitIs64Bits();
    ReadUvarintLeavesTail(data[1..], 0);
    WrapValues(count.value);
    PastEndOfProduct(|data| - |count.rest|, count.value, 37, |data|);
  }

  function Flags(inputs: map<Outpoint, Option<bool>>, order: seq<Outpoint>): map<Outpoint, Option<bool>>
    requires forall o :: o in order ==> o in inputs
  {
    map o | o in order :: Some(Flag(inputs[o]))
  }

  lemma FlagsBehind(inputs: map<Outpoint, Option<bool>>, order: seq<Outpoint>, seen: map<Outpoint, Option<bool>>)
    requires forall o :: o in order ==> o in inputs
    ensures seen + Flags(inputs, []) == seen
    ensures order != [] ==>
      seen[order[0] := Some(Flag(inputs[order[0]]))] + Flags(inputs, order[1..]) == seen + Flags(inputs, order)
  {
    hide Flag;
    assert seen + Flags(inputs, []) == seen;
  }

  lemma {:induction false} ReadEntriesInverts(inputs: map<Outpoint, Option<bool>>, order: seq<Outpoint>, rest: seq<byte>,
                                              seen: map<Outpoint, Option<bool>>)
    requires forall o :: o in order ==> o in inputs
    ensures ReadEntries(EntriesBytes(inputs, order) + rest, |order|, seen) ==
            (seen + Flags(inputs, order), rest)
    decreases |order|
  {
    hide ReadOutpoint, OutpointBytes, Flag, Flags;
    FlagsBehind(inputs, order, seen);
    if order == [] {
      assert EntriesBytes(inputs, order) + rest == rest;
    } else {
      var o := order[0];
      var behind := EntriesBytes(inputs, order[1..]) + rest;
      var s := EntriesBytes(inputs, order) + rest;
      ReadOutpointInverts(o, s[36..]);
      assert s == OutpointBytes(o) + s[36..];
      assert s[37..] == behind;
      ReadEntriesInverts(inputs, order[1..], rest, seen[o := Some(Flag(inputs[o]))]);
    }
  }

  /** Decoding recovers a response from every order its outpoints are written in; a nil entry becomes a false flag. */
  lemma NodeResponseRoundTrip(r: NodeResponse, order: seq<Outpoint>)
    requires Visits(order, r.requestedInputs.Keys) && |NodeResponseBytes(r, order)| < Addressable
    ensures NodeResponseOf(NodeResponseBytes(r, order)) ==
      Success(NodeResponse(map o | o in r.requestedInputs :: Some(Flag(r.requestedInputs[o]))))
  {
    hide Uvarint, ReadUvarint, EntriesBytes, ReadEntries, Flag;
    var inputs := r.requestedInputs;
    var entries := EntriesBytes(inputs, order);
    assert ([WireVersion] + (Uvarint(|order|) + entries))[1..] == Uvarint(|order|) + entries;
    UvarintLimitIs64Bits();
    ReadUvarintInverts(|order|, entries, 0);
    ReadEntriesInverts(inputs, order, [], map[]);
    assert entries + [] == entries;
    assert map[] + Flags(inputs, order) == map o | o in inputs :: Some(Flag(inputs[o]));
  }

  function CountedBytes(count: nat, rest: seq<byte>): seq<byte> {
    [WireVersion] + (Uvarint(count) + rest)
  }

  /** A count whose 37-fold leaves 25 modulo 2^64 passes the check with 25 bytes behind it; a count of 2^63 reads as no
      entries. */
  lemma CountsCanWrap(rest: seq<byte>)
    requires |rest| == 25
    ensures NodeResponseOf(CountedBytes(498560650640798693, rest)) == Failure(Panics)
    ensures NodeResponseOf(CountedBytes(Addressable, [])) == Success(NodeResponse(map[]))
  {
    hide Uvarint, ReadUvarint, NodeResponseOf;
    UvarintLimitIs64Bits();
    var count: nat := 498560650640798693;
    UvarintLength(count);
    UvarintLength(Addressable);
    assert CountedBytes(count, rest)[1..] == Uvarint(count) + rest;
    assert CountedBytes(Addressable, [])[1..] == Uvarint(Addressable) + [];
    ReadUvarintInverts(count, rest, 0);
    ReadUvarintInverts(Addressable, [], 0);
    assert count * 37 == TwoTo64 + 25;
    assert Addressable * 37 == 18 * TwoTo64 + Addressable;
    NodeResponseOutcome(CountedBytes(count, rest), Parsed(count, rest));
    NodeResponseOutcome(CountedBytes(Addressable, []), Parsed(Addressable, []));
  }

  lemma {:induction false} UvarintLength(value: nat)
    ensures |Uvarint(value)| <= 1 + value / 128
  {
    if value >= 128 {
      UvarintLength(value / 128);
    }
  }

  // Which bytes the serializer of responses writes

  function EntryOutpoints(s: seq<byte>, count: nat): (r: seq<Outpoint>)
    requires |s| >= 37 * count
    ensures |r| == count
    decreases count
  {
    if count == 0 then [] else [ReadOutpoint(s)] + EntryOutpoints(s[37..], count - 1)
  }

  predicate ShortFlags(s: seq<byte>, count: nat)
    requires |s| >= 37 * count
    decreases count
  {
    count > 0 ==> s[36] <= 1 && ShortFlags(s[37..], count - 1)
  }

  /** Accepted bytes with a shortest count that they hold, flag bytes 0 or 1, and no outpoint twice. */
  ghost predicate ResponseShortest(data: seq<byte>)
    requires NodeResponseOf(data).Success?
  {
    var count := ReadUvarint(data[1..]).value;
    && ShortVarint(data[1..])
    && |count.rest| == 37 * count.value
    && ShortFlags(count.rest, count.value)
    && Distinct(EntryOutpoints(count.rest, count.value))
  }

  /** Some response is serialized to these bytes, in some order of its outpoints. */
  ghost predicate IsResponseEncoding(data: seq<byte>) {
    exists r: NodeResponse, order :: Visits(order, r.requestedInputs.Keys) && data == NodeResponseBytes(r, order)
  }

  /** Entries read with distinct outpoints are the entries of the map they make, in the order they were read. */
  lemma {:induction false} EntriesAreWritten(s: seq<byte>, count: nat, seen: map<Outpoint, Option<bool>>)
    requires |s| == 37 * count && ShortFlags(s, count) && Distinct(EntryOutpoints(s, count))
    ensures var order := EntryOutpoints(s, count);
      var inputs := ReadEntries(s, count, seen).0;
      && (forall o :: o in inputs <==> o in seen || o in order)
      && (forall o :: o in seen && o !in order ==> inputs[o] == seen[o])
      && s == EntriesBytes(inputs, order)
    decreases count
  {
    hide ReadOutpoint, OutpointBytes;
    if count > 0 {
      var o := ReadOutpoint(s);
      var flag := Some(s[36] != 0);
      var others := EntryOutpoints(s[37..], count - 1);
      var order := EntryOutpoints(s, count);
      assert order[0] == o && order[1..] == others;
      assert Distinct(others) by {
        assert forall i :: 0 <= i < |others| ==> others[i] == order[i + 1];
      }
      EntriesAreWritten(s[37..], count - 1, seen[o := flag]);
      var inputs := ReadEntries(s, count, seen).0;
      assert o !in others;
      assert inputs[o] == flag;
      OutpointIsRead(s);
      assert s[..37] == EntryBytes(o, flag);
      assert s == s[..37] + s[37..];
    }
  }

  lemma OutpointIsRead(s: seq<byte>)
    requires |s| >= 36
    ensures s[..36] == OutpointBytes(ReadOutpoint(s))
  {
    hide ToLittleEndian, FromLittleEndian;
    ToFromLittleEndian(s[32..36]);
    assert s[..36] == s[..32] + s[32..36];
  }

  lemma {:induction false} WrittenEntriesAreShort(inputs: map<Outpoint, Option<bool>>, order: seq<Outpoint>)
    requires forall o :: o in order ==> o in inputs
    ensures var s := EntriesBytes(inputs, order); ShortFlags(s, |order|) && EntryOutpoints(s, |order|) == order
    decreases |order|
  {
    hide ReadOutpoint, OutpointBytes;
    if order != [] {
      var s := EntriesBytes(inputs, order);
      ReadOutpointInverts(order[0], s[36..]);
      assert s == OutpointBytes(order[0]) + s[36..];
      assert s[37..] == EntriesBytes(inputs, order[1..]);
      WrittenEntriesAreShort(inputs, order[1..]);
      assert order == [order[0]] + order[1..];
    }
  }

  /** Accepted bytes are a response's own encoding exactly when they are shortest. */
  lemma ResponseEncodingIsShortest(data: seq<byte>)
    requires |data| < Addressable && NodeResponseOf(data).Success?
    ensures IsResponseEncoding(data) <==> ResponseShortest(data)
  {
    hide Uvarint, ReadUvarint, ShortVarint, EntriesBytes, ReadEntries, NodeResponseOf, ResponseShortest;
    assert data != [] && data[0] == WireVersion && ReadUvarint(data[1..]).Success? by {
      ResponseStarts(data);
    }
    if ResponseShortest(data) {
      ShortResponsesAreWritten(data);
    }
    if IsResponseEncoding(data) {
      var r: NodeResponse, order :| Visits(order, r.requestedInputs.Keys) && data == NodeResponseBytes(r, order);
      WrittenResponsesAreShort(r, order);
    }
  }

  lemma ResponseStarts(data: seq<byte>)
    requires NodeResponseOf(data).Success?
    ensures data != [] && data[0] == WireVersion && ReadUvarint(data[1..]).Success?
  {
  }

  lemma ShortResponsesAreWritten(data: seq<byte>)
    requires |data| < Addressable && NodeResponseOf(data).Success? && ResponseShortest(data)
    ensures IsResponseEncoding(data)
  {
    hide Uvarint, ReadUvarint, ShortVarint, EntriesBytes, ReadEntries, NodeResponseOf, ShortFlags, EntryOutpoints;
    ResponseStarts(data);
    var count := ReadUvarint(data[1..]).value;
    var order := EntryOutpoints(count.rest, count.value);
    var inputs := ReadEntries(count.rest, count.value, map[]).0;
    ShortestVarint(data[1..], 0);
    EntriesAreWritten(count.rest, count.value, map[]);
    assert Visits(order, inputs.Keys);
    assert data == [WireVersion] + data[1..];
    assert data == NodeResponseBytes(NodeResponse(inputs), order);
  }

  lemma WrittenResponsesAreShort(r: NodeResponse, order: seq<Outpoint>)
    requires Visits(order, r.requestedInputs.Keys) && |NodeResponseBytes(r, order)| < Addressable
    requires NodeResponseOf(NodeResponseBytes(r, order)).Success?
    ensures ResponseShortest(NodeResponseBytes(r, order))
  {
    hide Uvarint, ReadUvarint, ShortVarint, EntriesBytes, ReadEntries, NodeResponseOf, ShortFlags, EntryOutpoints;
    var entries := EntriesBytes(r.requestedInputs, order);
    var data := NodeResponseBytes(r, order);
    assert data[1..] == Uvarint(|order|) + entries;
    UvarintLimitIs64Bits();
    ReadUvarintInverts(|order|, entries, 0);
    ShortestVarint(data[1..], 0);
    WrittenEntriesAreShort(r.requestedInputs, order);
  }

  // Output lists

  function OutputBytes(o: Output): (r: seq<byte>)
    ensures |r| == 44
  {
    OutpointBytes(Outpoint(o.txid, o.outputIndex)) + ToLittleEndian(o.score, 8)
  }

  function OutputsBytes(outputs: seq<Output>): (r: seq<byte>)
    ensures |r| == 44 * |outputs|
  {
    if outputs == [] then [] else OutputBytes(outputs[0]) + OutputsBytes(outputs[1..])
  }

  function OutputListBytes(outputs: seq<Output>): seq<byte> {
    Uvarint(|outputs|) + OutputsBytes(outputs)
  }

  lemma {:induction false} OutputsBytesAppend(outputs: seq<Output>, o: Output)
    ensures OutputsBytes(outputs + [o]) == OutputsBytes(outputs) + OutputBytes(o)
  {
    hide OutputBytes;
    if outputs == [] {
      assert [o][1..] == [] && [] + [o] == [o];
      assert OutputsBytes([o]) == OutputBytes(o) + [];
    } else {
      OutputsBytesAppend(outputs[1..], o);
      assert (outputs + [o])[1..] == outputs[1..] + [o];
    }
  }

  method AppendOutputList(buf: seq<byte>, outputs: seq<Output>) returns (r: seq<byte>)
    ensures r == buf + OutputListBytes(outputs)
  {
    hide Uvarint, OutputBytes;
    r := buf + Uvarint(|outputs|);
    var i := 0;
    while i < |outputs|
      invariant 0 <= i <= |outputs|
      invariant r == buf + (Uvarint(|outputs|) + OutputsBytes(outputs[..i]))
    {
      OutputsBytesAppend(outputs[..i], outputs[i]);
      assert outputs[..i + 1] == outputs[..i] + [outputs[i]];
      r := r + OutputBytes(outputs[i]);
      i := i + 1;
    }
    assert outputs[..i] == outputs;
  }

  function ReadOutput(s: seq<byte>): Output
    requires |s| >= 44
  {
    var outpoint := ReadOutpoint(s);
    EightBytesFit(s[36..44]);
    Output(outpoint.txid, outpoint.index, FromLittleEndian(s[36..44]))
  }

  function ReadOutputs(s: seq<byte>, count: nat): (r: seq<Output>)
    requires |s| >= 44 * count
    ensures |r| == count
    decreases count
  {
    if count == 0 then [] else [ReadOutput(s)] + ReadOutputs(s[44..], count - 1)
  }

  /** The list at the tail s of data with `end` bytes; allocating a list whose length wrapped past the check panics. */
  function OutputListOf(s: seq<byte>, end: nat): Result<seq<Output>, WireError> {
    var count :- ReadUvarint(s);
    if PastEnd(end - |count.rest|, Wrap(count.value) * 44, end) then Failure(TooShort)
    else if count.value * 44 > |count.rest| then Failure(Panics)
    else Success(ReadOutputs(count.rest, count.value))
  }

  method ReadOutputList(data: seq<byte>, start: nat) returns (r: Result<seq<Output>, WireError>)
    requires start <= |data|
    ensures r == OutputListOf(data[start..], |data|)
  {
    hide ReadUvarint, ReadOutput, ReadOutputs, PastEnd;
    var count :- ReadUvarint(data[start..]);
    ReadUvarintLeavesTail(data[start..], 0);
    var offset := |data| - |count.rest|;
    assert data[offset..] == count.rest;
    var needed := Wrap(count.value) * 44;
    if PastEnd(offset, needed, |data|) {
      return Failure(TooShort);
    }
    if count.value * 44 > |data| - offset {
      return Failure(Panics);
    }
    var outputs := new Output[count.value](i => Output(ZeroHash, 0, 0));
    ghost var whole := ReadOutputs(data[offset..], count.value);
    var i := 0;
    while i < count.value
      invariant 0 <= i <= count.value == outputs.Length && offset + (count.value - i) * 44 <= |data|
      invariant whole == outputs[..i] + ReadOutputs(data[offset..], count.value - i)
    {
      ReadOutputsStep(outputs[..i], data[offset..], count.value - i);
      assert data[offset..][44..] == data[offset + 44..];
      outputs[i] := ReadOutput(data[offset..]);
      assert outputs[..i + 1] == outputs[..i] + [outputs[i]];
      offset := offset + 44;
      i := i + 1;
    }
    ReadOutputsStep(outputs[..i], data[offset..], 0);
    assert outputs[..] == outputs[..i];
    return Success(outputs[..]);
  }

  lemma ReadOutputsStep(done: seq<Output>, s: seq<byte>, count: nat)
    requires |s| >= 44 * count
    ensures count == 0 ==> done + ReadOutputs(s, count) == done
    ensures count > 0 ==> done + ReadOutputs(s, count) == done + [ReadOutput(s)] + ReadOutputs(s[44..], count - 1)
  {
    hide ReadOutput;
    if count > 0 {
      var others := ReadOutputs(s[44..], count - 1);
      assert done + ([ReadOutput(s)] + others) == done + [ReadOutput(s)] + others;
    }
  }

  lemma ReadOutputInverts(o: Output, rest: seq<byte>)
    ensures ReadOutput(OutputBytes(o) + rest) == o
  {
    hide ToLittleEndian, FromLittleEndian, ReadOutpoint, OutpointBytes;
    var outpoint := Outpoint(o.txid, o.outputIndex);
    var score := ToLittleEndian(o.score, 8);
    var s := OutputBytes(o) + rest;
    assert s == OutpointBytes(outpoint) + (score + rest);
    assert s[36..44] == score;
    ReadOutpointInverts(outpoint, score + rest);
    Pow256Values();
    FromToLittleEndian(o.score, 8);
  }

  lemma {:induction false} ReadOutputsInverts(outputs: seq<Output>, rest: seq<byte>)
    ensures ReadOutputs(OutputsBytes(outputs) + rest, |outputs|) == outputs
    decreases |outputs|
  {
    hide OutputBytes, ReadOutput;
    if outputs != [] {
      var behind := OutputsBytes(outputs[1..]) + rest;
      var s := OutputsBytes(outputs) + rest;
      assert s == OutputBytes(outputs[0]) + behind;
      assert s[44..] == behind;
      ReadOutputInverts(outputs[0], behind);
      ReadOutputsInverts(outputs[1..], rest);
    }
  }

  /** A list's outcome once its count is read: short ones are refused while the true sum fits an int. */
  lemma OutputListOutcome(s: seq<byte>, end: nat, count: Parsed<nat>)
    requires |s| <= end < Addressable && ReadUvarint(s) == Success(count)
    ensures var sum := end - |count.rest| + count.value * 44;
      OutputListOf(s, end) ==
        if sum <= end then Success(ReadOutputs(count.rest, count.value))
        else if end < sum % TwoTo64 < Addressable then Failure(TooShort)
        else Failure(Panics)
    ensures var sum := end - |count.rest| + count.value * 44;
      end < sum < Addressable ==> OutputListOf(s, end) == Failure(TooShort)
  {
    hide ReadUvarint, Wrap, PastEnd, ReadOutputs;
    ReadUvarintBound(s, 0);
    UvarintLimitIs64Bits();
    ReadUvarintLeavesTail(s, 0);
    PastEndOfProduct(end - |count.rest|, count.value, 44, end);
  }

  /** A list is read back from the tail of a message, whatever follows it there. */
  lemma OutputListRoundTrip(outputs: seq<Output>, rest: seq<byte>, end: nat)
    requires |OutputListBytes(outputs) + rest| <= end < Addressable
    ensures OutputListOf(OutputListBytes(outputs) + rest, end) == Success(outputs)
  {
    hide Uvarint, ReadUvarint, OutputsBytes, ReadOutputs, OutputListOf;
    UvarintLimitIs64Bits();
    var s := OutputListBytes(outputs) + rest;
    assert s == Uvarint(|outputs|) + (OutputsBytes(outputs) + rest);
    ReadUvarintInverts(|outputs|, OutputsBytes(outputs) + rest, 0);
    ReadOutputsInverts(outputs, rest);
    OutputListOutcome(s, end, Parsed(|outputs|, OutputsBytes(outputs) + rest));
  }

  // The messages that end with an output list

  /** Since is the bit pattern of its float64. */
  datatype InitialResponse = InitialResponse(since: uint64, utxoList: seq<Output>)

  function InitialResponseBytes(r: InitialResponse): seq<byte> {
    [WireVersion] + (ToLittleEndian(r.since, 8) + OutputListBytes(r.utxoList))
  }

  function InitialReplyBytes(utxoList: seq<Output>): seq<byte> {
    [WireVersion] + OutputListBytes(utxoList)
  }

  method SerializeInitialResponse(r: InitialResponse) returns (buf: seq<byte>)
    ensures buf == InitialResponseBytes(r)
  {
    hide ToLittleEndian, OutputListBytes;
    buf := [WireVersion];
    buf := buf + ToLittleEndian(r.since, 8);
    buf := AppendOutputList(buf, r.utxoList);
  }

  method SerializeInitialReply(utxoList: seq<Output>) returns (buf: seq<byte>)
    ensures buf == InitialReplyBytes(utxoList)
  {
    buf := [WireVersion];
    buf := AppendOutputList(buf, utxoList);
  }

  function InitialResponseOf(data: seq<byte>): Result<InitialResponse, WireError> {
    var body :- CheckVersion(data);
    if |body.rest| < 8 then Failure(TooShort)
    else
      EightBytesFit(body.rest[..8]);
      var utxoList :- OutputListOf(body.rest[8..], |data|);
      Success(InitialResponse(FromLittleEndian(body.rest[..8]), utxoList))
  }

  function InitialReplyOf(data: seq<byte>): Result<seq<Output>, WireError> {
    var body :- CheckVersion(data);
    OutputListOf(body.rest, |data|)
  }

  method DeserializeInitialResponse(data: seq<byte>) returns (r: Result<InitialResponse, WireError>)
    ensures r == InitialResponseOf(data)
  {
    hide OutputListOf, FromLittleEndian;
    var version :- CheckVersion(data);
    if |data| - 1 < 8 {
      return Failure(TooShort);
    }
    EightBytesFit(data[1..9]);
    var since := FromLittleEndian(data[1..9]);
    assert data[1..][..8] == data[1..9] && data[1..][8..] == data[9..];
    var list := ReadOutputList(data, 9);
    var utxoList :- list;
    return Success(InitialResponse(since, utxoList));
  }

  method DeserializeInitialReply(data: seq<byte>) returns (r: Result<seq<Output>, WireError>)
    ensures r == InitialReplyOf(data)
  {
    hide OutputListOf;
    var version :- CheckVersion(data);
    r := ReadOutputList(data, 1);
  }

  /** Both messages are recovered, and neither decoder looks behind the list. */
  lemma InitialMessagesRoundTrip(r: InitialResponse, rest: seq<byte>)
    requires |InitialResponseBytes(r) + rest| < Addressable
    ensures InitialResponseOf(InitialResponseBytes(r) + rest) == Success(r)
    ensures InitialReplyOf(InitialReplyBytes(r.utxoList) + rest) == Success(r.utxoList)
  {
    hide OutputListBytes, OutputListOf, ToLittleEndian, FromLittleEndian;
    var since := ToLittleEndian(r.since, 8);
    var list := OutputListBytes(r.utxoList) + rest;
    var data := InitialResponseBytes(r) + rest;
    assert data[1..] == since + list && data[1..][..8] == since && data[1..][8..] == list;
    Pow256Values();
    FromToLittleEndian(r.since, 8);
    OutputListRoundTrip(r.utxoList, rest, |data|);
    var reply := InitialReplyBytes(r.utxoList) + rest;
    assert reply[1..] == list;
    OutputListRoundTrip(r.utxoList, rest, |reply|);
  }
}
