/** Standard transactions and their preflight (pkg/core/basm/wire.go). */
module RawTransaction {
  import opened Anchors
  import opened Bytes
  import opened Wrappers
  import opened WireReader

  datatype TxInput = TxInput(outpoint: seq<byte>, script: seq<byte>, sequence: seq<byte>)

  datatype TxOutput = TxOutput(amount: seq<byte>, script: seq<byte>)

  datatype RawTx = RawTx(version: seq<byte>, inputs: seq<TxInput>, outputs: seq<TxOutput>, lockTime: seq<byte>)

  predicate InputWellFormed(i: TxInput) {
    |i.outpoint| == 36 && |i.script| < TwoTo64 && |i.sequence| == 4
  }

  predicate OutputWellFormed(o: TxOutput) {
    |o.amount| == 8 && |o.script| < TwoTo64
  }

  predicate InputsWellFormed(inputs: seq<TxInput>) {
    forall i :: 0 <= i < |inputs| ==> InputWellFormed(inputs[i])
  }

  predicate OutputsWellFormed(outputs: seq<TxOutput>) {
    forall i :: 0 <= i < |outputs| ==> OutputWellFormed(outputs[i])
  }

  predicate WellFormed(tx: RawTx) {
    && |tx.version| == 4 && |tx.lockTime| == 4
    && 0 < |tx.inputs| < TwoTo64 && InputsWellFormed(tx.inputs)
    && 0 < |tx.outputs| < TwoTo64 && OutputsWellFormed(tx.outputs)
  }

  // Serialization

  function ScriptBytes(script: seq<byte>): seq<byte>
    requires |script| < TwoTo64
  {
    CompactSize(|script|) + script
  }

  function InputBytes(i: TxInput): seq<byte>
    requires InputWellFormed(i)
  {
    i.outpoint + (ScriptBytes(i.script) + i.sequence)
  }

  function OutputBytes(o: TxOutput): seq<byte>
    requires OutputWellFormed(o)
  {
    o.amount + ScriptBytes(o.script)
  }

  function InputsBytes(inputs: seq<TxInput>): seq<byte>
    requires InputsWellFormed(inputs)
  {
    if inputs == [] then [] else InputBytes(inputs[0]) + InputsBytes(inputs[1..])
  }

  function OutputsBytes(outputs: seq<TxOutput>): seq<byte>
    requires OutputsWellFormed(outputs)
  {
    if outputs == [] then [] else OutputBytes(outputs[0]) + OutputsBytes(outputs[1..])
  }

  function Serialize(tx: RawTx): seq<byte>
    requires WellFormed(tx)
  {
    tx.version + (CompactSize(|tx.inputs|) + (InputsBytes(tx.inputs) +
      (CompactSize(|tx.outputs|) + (OutputsBytes(tx.outputs) + tx.lockTime))))
  }

  // The grammar, read forward and without any bound on counts

  function ParseScript(s: seq<byte>): Parse<seq<byte>> {
    var length :- ParseCompactSize(s);
    Take(length.rest, length.value)
  }

  function ParseInput(s: seq<byte>): Parse<TxInput> {
    var outpoint :- Take(s, 36);
    var script :- ParseScript(outpoint.rest);
    var sequence :- Take(script.rest, 4);
    Success(Parsed(TxInput(outpoint.value, script.value, sequence.value), sequence.rest))
  }

  function ParseOutput(s: seq<byte>): Parse<TxOutput> {
    var amount :- Take(s, 8);
    var script :- ParseScript(amount.rest);
    Success(Parsed(TxOutput(amount.value, script.value), script.rest))
  }

  function ParseInputs(s: seq<byte>, count: nat): Parse<seq<TxInput>> {
    if count == 0 then Success(Parsed([], s))
    else
      var first :- ParseInput(s);
      var others :- ParseInputs(first.rest, count - 1);
      Success(Parsed([first.value] + others.value, others.rest))
  }

  function ParseOutputs(s: seq<byte>, count: nat): Parse<seq<TxOutput>> {
    if count == 0 then Success(Parsed([], s))
    else
      var first :- ParseOutput(s);
      var others :- ParseOutputs(first.rest, count - 1);
      Success(Parsed([first.value] + others.value, others.rest))
  }

  function ParseInputList(s: seq<byte>): Parse<seq<TxInput>> {
    var count :- ParseCompactSize(s);
    if count.value == 0 then Failure(InvalidInput) else ParseInputs(count.rest, count.value)
  }

  function ParseVersionAndInputs(s: seq<byte>): Parse<(seq<byte>, seq<TxInput>)> {
    var version :- Take(s, 4);
    var inputs :- ParseInputList(version.rest);
    Success(Parsed((version.value, inputs.value), inputs.rest))
  }

  function ParseOutputList(s: seq<byte>): Parse<seq<TxOutput>> {
    var count :- ParseCompactSize(s);
    if count.value == 0 then Failure(InvalidInput) else ParseOutputs(count.rest, count.value)
  }

  function ParseTransaction(s: seq<byte>): Result<RawTx, BasmError> {
    var head :- ParseVersionAndInputs(s);
    var outputs :- ParseOutputList(head.rest);
    var lockTime :- Take(outputs.rest, 4);
    if lockTime.rest != [] then Failure(InvalidInput)
    else Success(RawTx(head.value.0, head.value.1, outputs.value, lockTime.value))
  }

  // Parsing inverts serialization

  lemma ScriptInverts(script: seq<byte>, rest: seq<byte>)
    requires |script| < TwoTo64
    ensures ParseScript(ScriptBytes(script) + rest) == Success(Parsed(script, rest))
  {
    hide ParseCompactSize, CompactSize;
    ParseCompactSizeInverts(|script|, script + rest);
    assert ScriptBytes(script) + rest == CompactSize(|script|) + (script + rest);
    TakeInverts(script, rest);
  }

  lemma InputInverts(i: TxInput, rest: seq<byte>)
    requires InputWellFormed(i)
    ensures ParseInput(InputBytes(i) + rest) == Success(Parsed(i, rest))
  {
    hide ParseScript, ScriptBytes;
    var script := ScriptBytes(i.script);
    assert InputBytes(i) + rest == i.outpoint + (script + (i.sequence + rest));
    TakeInverts(i.outpoint, script + (i.sequence + rest));
    ScriptInverts(i.script, i.sequence + rest);
    TakeInverts(i.sequence, rest);
  }

  lemma OutputInverts(o: TxOutput, rest: seq<byte>)
    requires OutputWellFormed(o)
    ensures ParseOutput(OutputBytes(o) + rest) == Success(Parsed(o, rest))
  {
    hide ParseScript, ScriptBytes;
    var script := ScriptBytes(o.script);
    assert OutputBytes(o) + rest == o.amount + (script + rest);
    TakeInverts(o.amount, script + rest);
    ScriptInverts(o.script, rest);
  }

  lemma {:induction false} InputsInvert(inputs: seq<TxInput>, rest: seq<byte>)
    requires InputsWellFormed(inputs)
    ensures ParseInputs(InputsBytes(inputs) + rest, |inputs|) == Success(Parsed(inputs, rest))
  {
    hide ParseInput, InputBytes;
    if inputs == [] {
      assert InputsBytes(inputs) + rest == rest;
    } else {
      var behind := InputsBytes(inputs[1..]) + rest;
      assert InputsBytes(inputs) + rest == InputBytes(inputs[0]) + behind;
      InputInverts(inputs[0], behind);
      InputsInvert(inputs[1..], rest);
      assert inputs == [inputs[0]] + inputs[1..];
    }
  }

  lemma {:induction false} OutputsInvert(outputs: seq<TxOutput>, rest: seq<byte>)
    requires OutputsWellFormed(outputs)
    ensures ParseOutputs(OutputsBytes(outputs) + rest, |outputs|) == Success(Parsed(outputs, rest))
  {
    hide ParseOutput, OutputBytes;
    if outputs == [] {
      assert OutputsBytes(outputs) + rest == rest;
    } else {
      var behind := OutputsBytes(outputs[1..]) + rest;
      assert OutputsBytes(outputs) + rest == OutputBytes(outputs[0]) + behind;
      OutputInverts(outputs[0], behind);
      OutputsInvert(outputs[1..], rest);
      assert outputs == [outputs[0]] + outputs[1..];
    }
  }

  lemma ParseSerialize(tx: RawTx)
    requires WellFormed(tx)
    ensures ParseTransaction(Serialize(tx)) == Success(tx)
  {
    hide ParseInputs, ParseOutputs, InputsBytes, OutputsBytes, CompactSize, ParseCompactSize;
    var outputs := OutputsBytes(tx.outputs) + tx.lockTime;
    var outputList := CompactSize(|tx.outputs|) + outputs;
    var inputs := InputsBytes(tx.inputs) + outputList;
    TakeInverts(tx.version, CompactSize(|tx.inputs|) + inputs);
    ParseCompactSizeInverts(|tx.inputs|, inputs);
    InputsInvert(tx.inputs, outputList);
    ParseCompactSizeInverts(|tx.outputs|, outputs);
    OutputsInvert(tx.outputs, tx.lockTime);
    assert tx.lockTime + [] == tx.lockTime;
    TakeInverts(tx.lockTime, []);
  }

  // Serialization inverts parsing

  lemma ScriptBytesOf(s: seq<byte>)
    requires ParseScript(s).Success?
    ensures var p := ParseScript(s).value; |p.value| < TwoTo64 && s == ScriptBytes(p.value) + p.rest
  {
    hide ParseCompactSize, CompactSize;
    CompactSizeInverts(s);
    var length := ParseCompactSize(s).value;
    assert length.rest == length.rest[..length.value] + length.rest[length.value..];
  }

  lemma InputBytesOf(s: seq<byte>)
    requires ParseInput(s).Success?
    ensures var p := ParseInput(s).value; InputWellFormed(p.value) && s == InputBytes(p.value) + p.rest
  {
    hide ParseScript, ScriptBytes;
    ScriptBytesOf(s[36..]);
    var script := ParseScript(s[36..]).value;
    var p := ParseInput(s).value;
    calc {
      s;
      s[..36] + s[36..];
      s[..36] + (ScriptBytes(script.value) + script.rest);
      { assert script.rest == script.rest[..4] + script.rest[4..]; }
      s[..36] + (ScriptBytes(script.value) + (script.rest[..4] + script.rest[4..]));
      InputBytes(p.value) + p.rest;
    }
  }

  lemma OutputBytesOf(s: seq<byte>)
    requires ParseOutput(s).Success?
    ensures var p := ParseOutput(s).value; OutputWellFormed(p.value) && s == OutputBytes(p.value) + p.rest
  {
    hide ParseScript, ScriptBytes;
    ScriptBytesOf(s[8..]);
    var script := ParseScript(s[8..]).value;
    assert s == s[..8] + (ScriptBytes(script.value) + script.rest);
  }

  lemma {:induction false} InputsBytesOf(s: seq<byte>, count: nat)
    requires ParseInputs(s, count).Success?
    ensures var p := ParseInputs(s, count).value;
      |p.value| == count && InputsWellFormed(p.value) && s == InputsBytes(p.value) + p.rest
    ensures |s| >= 41 * count
    decreases count
  {
    hide ParseInput, InputBytes;
    if count > 0 {
      InputBytesOf(s);
      var first := ParseInput(s).value;
      InputsBytesOf(first.rest, count - 1);
      var others := ParseInputs(first.rest, count - 1).value;
      var p := ParseInputs(s, count).value;
      assert p.value[1..] == others.value;
      assert s == InputBytes(first.value) + (InputsBytes(others.value) + others.rest);
      InputBytesLength(first.value);
    }
  }

  lemma InputBytesLength(i: TxInput)
    requires InputWellFormed(i)
    ensures |InputBytes(i)| >= 41
  {
  }

  lemma OutputBytesLength(o: TxOutput)
    requires OutputWellFormed(o)
    ensures |OutputBytes(o)| >= 9
  {
  }

  lemma {:induction false} OutputsBytesOf(s: seq<byte>, count: nat)
    requires ParseOutputs(s, count).Success?
    ensures var p := ParseOutputs(s, count).value;
      |p.value| == count && OutputsWellFormed(p.value) && s == OutputsBytes(p.value) + p.rest
    ensures |s| >= 9 * count
    decreases count
  {
    hide ParseOutput, OutputBytes;
    if count > 0 {
      OutputBytesOf(s);
      var first := ParseOutput(s).value;
      OutputsBytesOf(first.rest, count - 1);
      var others := ParseOutputs(first.rest, count - 1).value;
      var p := ParseOutputs(s, count).value;
      assert p.value[1..] == others.value;
      assert s == OutputBytes(first.value) + (OutputsBytes(others.value) + others.rest);
      OutputBytesLength(first.value);
    }
  }

  lemma SerializeParse(s: seq<byte>)
    requires ParseTransaction(s).Success?
    ensures WellFormed(ParseTransaction(s).value) && Serialize(ParseTransaction(s).value) == s
  {
    hide ParseInputs, ParseOutputs, InputsBytes, OutputsBytes, CompactSize, ParseCompactSize;
    var s1 := s[4..];
    CompactSizeInverts(s1);
    var inputCount := ParseCompactSize(s1).value;
    InputsBytesOf(inputCount.rest, inputCount.value);
    var s2 := ParseInputs(inputCount.rest, inputCount.value).value.rest;
    CompactSizeInverts(s2);
    var outputCount := ParseCompactSize(s2).value;
    OutputsBytesOf(outputCount.rest, outputCount.value);
    var s3 := ParseOutputs(outputCount.rest, outputCount.value).value.rest;
    assert s3 == s3[..4];
    assert s == s[..4] + s1;
  }

  ghost predicate IsTransaction(data: seq<byte>) {
    exists tx: RawTx :: WellFormed(tx) && Serialize(tx) == data
  }

  lemma ParsesExactlyTransactions(data: seq<byte>)
    ensures ParseTransaction(data).Success? <==> IsTransaction(data)
  {
    if ParseTransaction(data).Success? {
      SerializeParse(data);
    }
    if tx: RawTx :| WellFormed(tx) && Serialize(tx) == data {
      ParseSerialize(tx);
    }
  }

  /** The bytes of a transaction determine it. */
  lemma SerializeIsInjective(tx: RawTx, tx': RawTx)
    requires WellFormed(tx) && WellFormed(tx') && Serialize(tx) == Serialize(tx')
    ensures tx == tx'
  {
    ParseSerialize(tx);
    ParseSerialize(tx');
  }

  // The preflight: skips over the fields and bounds every count by the bytes left

  lemma InputFailure(s: seq<byte>)
    ensures ParseInput(s).Failure? ==> ParseInput(s) == Failure(InvalidInput)
  {
  }

  lemma {:induction false} InputsFailure(s: seq<byte>, count: nat)
    ensures ParseInputs(s, count).Failure? ==> ParseInputs(s, count) == Failure(InvalidInput)
    decreases count
  {
    InputFailure(s);
    hide ParseInput;
    if count > 0 && ParseInput(s).Success? {
      InputsFailure(ParseInput(s).value.rest, count - 1);
    }
  }

  /** The bound on the count refuses nothing that parses. */
  lemma {:induction false} TooManyInputs(s: seq<byte>, count: nat)
    requires count > |s| / 41
    ensures ParseInputs(s, count) == Failure(InvalidInput)
  {
    InputsFailure(s, count);
    if ParseInputs(s, count).Success? {
      InputsBytesOf(s, count);
    }
  }

  lemma InputsStep(whole: Parse<seq<TxInput>>, s: seq<byte>, count: nat)
    requires count > 0 && SameTail(whole, ParseInputs(s, count))
    ensures var first := ParseInput(s);
      if first.Success? then SameTail(whole, ParseInputs(first.value.rest, count - 1)) else whole == Failure(first.error)
  {
  }

  lemma OutputFailure(s: seq<byte>)
    ensures ParseOutput(s).Failure? ==> ParseOutput(s) == Failure(InvalidInput)
  {
  }

  lemma {:induction false} OutputsFailure(s: seq<byte>, count: nat)
    ensures ParseOutputs(s, count).Failure? ==> ParseOutputs(s, count) == Failure(InvalidInput)
    decreases count
  {
    OutputFailure(s);
    hide ParseOutput;
    if count > 0 && ParseOutput(s).Success? {
      OutputsFailure(ParseOutput(s).value.rest, count - 1);
    }
  }

  /** The bound on the count refuses nothing that parses. */
  lemma {:induction false} TooManyOutputs(s: seq<byte>, count: nat)
    requires count > |s| / 9
    ensures ParseOutputs(s, count) == Failure(InvalidInput)
  {
    OutputsFailure(s, count);
    if ParseOutputs(s, count).Success? {
      OutputsBytesOf(s, count);
    }
  }

  lemma OutputsStep(whole: Parse<seq<TxOutput>>, s: seq<byte>, count: nat)
    requires count > 0 && SameTail(whole, ParseOutputs(s, count))
    ensures var first := ParseOutput(s);
      if first.Success? then SameTail(whole, ParseOutputs(first.value.rest, count - 1)) else whole == Failure(first.error)
  {
  }

  lemma NoInputs(s: seq<byte>)
    ensures ParseInputs(s, 0) == Success(Parsed([], s))
  {
  }

  lemma NoOutputs(s: seq<byte>)
    ensures ParseOutputs(s, 0) == Success(Parsed([], s))
  {
  }

  method SkipWireScript(reader: BoundedWireReader) returns (r: Result<(), BasmError>)
    requires reader.Valid()
    modifies reader`pos
    ensures reader.Valid()
    ensures Skips(r, reader.Rest(), ParseScript(old(reader.Rest())))
  {
    hide ParseCompactSize;
    var length :- reader.CompactSizeField();
    if length > reader.Remaining() {
      return Failure(InvalidInput);
    }
    var script := reader.Bytes(length);
    return Success(());
  }

  method SkipRawTransactionInput(reader: BoundedWireReader) returns (r: Result<(), BasmError>)
    requires reader.Valid()
    modifies reader`pos
    ensures reader.Valid()
    ensures Skips(r, reader.Rest(), ParseInput(old(reader.Rest())))
  {
    hide ParseScript;
    var outpoint :- reader.Bytes(36);
    var script :- SkipWireScript(reader);
    var sequence :- reader.Bytes(4);
    return Success(());
  }

  method SkipRawTransactionOutput(reader: BoundedWireReader) returns (r: Result<(), BasmError>)
    requires reader.Valid()
    modifies reader`pos
    ensures reader.Valid()
    ensures Skips(r, reader.Rest(), ParseOutput(old(reader.Rest())))
  {
    hide ParseScript;
    var amount :- reader.Bytes(8);
    var script :- SkipWireScript(reader);
    return Success(());
  }

  method SkipRawTransactionInputs(reader: BoundedWireReader) returns (r: Result<(), BasmError>)
    requires reader.Valid()
    modifies reader`pos
    ensures reader.Valid()
    ensures Skips(r, reader.Rest(), ParseVersionAndInputs(old(reader.Rest())))
  {
    hide ParseCompactSize, ParseInput, ParseInputs;
    var version :- reader.Bytes(4);
    var count :- reader.CompactSizeField();
    ghost var s := reader.Rest();
    if count == 0 || count > reader.Remaining() / 41 {
      if count > 0 {
        TooManyInputs(s, count);
      }
      return Failure(InvalidInput);
    }
    var input := 0;
    while input < count
      invariant reader.Valid() && 0 <= input <= count
      invariant SameTail(ParseInputs(s, count), ParseInputs(reader.Rest(), count - input))
    {
      InputsStep(ParseInputs(s, count), reader.Rest(), count - input);
      var skipped :- SkipRawTransactionInput(reader);
      input := input + 1;
    }
    NoInputs(reader.Rest());
    return Success(());
  }

  method SkipRawTransactionOutputs(reader: BoundedWireReader) returns (r: Result<(), BasmError>)
    requires reader.Valid()
    modifies reader`pos
    ensures reader.Valid()
    ensures Skips(r, reader.Rest(), ParseOutputList(old(reader.Rest())))
  {
    hide ParseCompactSize, ParseOutput, ParseOutputs;
    var count :- reader.CompactSizeField();
    ghost var s := reader.Rest();
    if count == 0 || count > reader.Remaining() / 9 {
      if count > 0 {
        TooManyOutputs(s, count);
      }
      return Failure(InvalidInput);
    }
    var output := 0;
    while output < count
      invariant reader.Valid() && 0 <= output <= count
      invariant SameTail(ParseOutputs(s, count), ParseOutputs(reader.Rest(), count - output))
    {
      OutputsStep(ParseOutputs(s, count), reader.Rest(), count - output);
      var skipped :- SkipRawTransactionOutput(reader);
      output := output + 1;
    }
    NoOutputs(reader.Rest());
    return Success(());
  }

  /** Accepts exactly the serializations of transactions: the bounds on counts refuse none of them. */
  method PreflightRawTransaction(data: seq<byte>) returns (r: Result<(), BasmError>)
    ensures r.Success? <==> IsTransaction(data)
    ensures r.Failure? ==> r.error == InvalidInput
  {
    ParsesExactlyTransactions(data);
    hide ParseVersionAndInputs, ParseOutputList, IsTransaction;
    var reader := new BoundedWireReader(data);
    var inputs :- SkipRawTransactionInputs(reader);
    var outputs :- SkipRawTransactionOutputs(reader);
    var lockTime :- reader.Bytes(4);
    if reader.Remaining() != 0 {
      return Failure(InvalidInput);
    }
    return Success(());
  }
}
