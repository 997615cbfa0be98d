/** CompactSize integers and the bounded reader of pkg/core/basm/wire.go. */
module WireReader {
  import opened Anchors
  import opened Bytes
  import opened Wrappers

  /** What a parser makes of some bytes; every refusal of the reader is an invalid input. */
  type Parse<+T> = Result<Parsed<T>, BasmError>

  function Take(s: seq<byte>, n: nat): Parse<seq<byte>> {
    if n <= |s| then Success(Parsed(s[..n], s[n..])) else Failure(InvalidInput)
  }

  // CompactSize

  function CompactSize(value: uint64): (r: seq<byte>)
    ensures 1 <= |r| <= 9
  {
    if value < 0xfd then [value]
    else if value < TwoTo16 then [0xfd] + ToLittleEndian(value, 2)
    else if value < TwoTo32 then [0xfe] + ToLittleEndian(value, 4)
    else [0xff] + ToLittleEndian(value, 8)
  }

  /** The number of bytes behind a prefix, and the least value that needs them. */
  function WideForm(prefix: byte): Option<(nat, nat)> {
    if prefix == 0xfd then Some((2, 0xfd))
    else if prefix == 0xfe then Some((4, 0x10000))
    else if prefix == 0xff then Some((8, 0x100000000))
    else None
  }

  /** Only the shortest form of a value is accepted. */
  function ParseCompactSize(s: seq<byte>): Parse<nat> {
    if s == [] then Failure(InvalidInput)
    else
      match WideForm(s[0])
      case None => Success(Parsed(s[0], s[1..]))
      case Some((width, minimum)) =>
        if |s| < 1 + width then Failure(InvalidInput)
        else
          var value := FromLittleEndian(s[1..1 + width]);
          if value < minimum then Failure(InvalidInput) else Success(Parsed(value, s[1 + width..]))
  }

  lemma ParseWide(value: nat, width: nat, prefix: byte, minimum: nat, rest: seq<byte>)
    requires WideForm(prefix) == Some((width, minimum)) && minimum <= value < Pow256(width)
    ensures ParseCompactSize([prefix] + ToLittleEndian(value, width) + rest) == Success(Parsed(value, rest))
  {
    var s := [prefix] + ToLittleEndian(value, width) + rest;
    FromToLittleEndian(value, width);
    assert s[1..1 + width] == ToLittleEndian(value, width);
    assert s[1 + width..] == rest;
  }

  lemma ParseCompactSizeInverts(value: uint64, rest: seq<byte>)
    ensures ParseCompactSize(CompactSize(value) + rest) == Success(Parsed(value, rest))
  {
    Pow256Values();
    if value < 0xfd {
      assert ([value] + rest)[1..] == rest;
    } else if value < TwoTo16 {
      ParseWide(value, 2, 0xfd, 0xfd, rest);
    } else if value < TwoTo32 {
      ParseWide(value, 4, 0xfe, 0x10000, rest);
    } else {
      ParseWide(value, 8, 0xff, 0x100000000, rest);
    }
  }

  /** A parsed value fits 64 bits and has one encoding: the bytes that were read. */
  lemma CompactSizeInverts(s: seq<byte>)
    requires ParseCompactSize(s).Success?
    ensures ParseCompactSize(s).value.value < TwoTo64
    ensures s == CompactSize(ParseCompactSize(s).value.value) + ParseCompactSize(s).value.rest
  {
    var p := ParseCompactSize(s).value;
    match WideForm(s[0])
    case None =>
      assert s == [s[0]] + s[1..];
    case Some((width, minimum)) =>
      var encoded := s[1..1 + width];
      Pow256Values();
      FromLittleEndianBound(encoded);
      ToFromLittleEndian(encoded);
      assert s == [s[0]] + encoded + s[1 + width..];
  }

  lemma TakeInverts(front: seq<byte>, rest: seq<byte>)
    ensures Take(front + rest, |front|) == Success(Parsed(front, rest))
  {
  }

  /** Two parsers agree on success, on the bytes they leave and on the error. */
  ghost predicate SameTail<T, U>(p: Parse<T>, q: Parse<U>) {
    if q.Success? then p.Success? && p.value.rest == q.value.rest else p == Failure(q.error)
  }

  /** Skipping succeeds exactly when parsing does, and leaves the same bytes. */
  ghost predicate Skips<T>(r: Result<(), BasmError>, rest: seq<byte>, p: Parse<T>) {
    if p.Success? then r.Success? && rest == p.value.rest else r == Failure(InvalidInput)
  }

  // The reader

  /** What a read gave, together with the bytes it left. */
  ghost function Outcome<T>(r: Result<T, BasmError>, rest: seq<byte>): Parse<T> {
    if r.Failure? then Failure(r.error) else Success(Parsed(r.value, rest))
  }

  /** Reads forward through fixed bytes; no read passes their end. */
  class BoundedWireReader {
    const data: seq<byte>
    var pos: nat

    ghost predicate Valid()
      reads this
    {
      pos <= |data|
    }

    /** The unread bytes. */
    ghost function Rest(): seq<byte>
      requires Valid()
      reads this
    {
      data[pos..]
    }

    constructor (data: seq<byte>)
      ensures Valid() && Rest() == data
    {
      this.data := data;
      pos := 0;
    }

    function Remaining(): (n: nat)
      requires Valid()
      reads this
      ensures n == |Rest()|
    {
      |data| - pos
    }

    method Byte() returns (r: Result<byte, BasmError>)
      requires Valid()
      modifies this`pos
      ensures Valid()
      ensures r.Success? <==> |old(Rest())| > 0
      ensures r.Success? ==> r.value == old(Rest())[0] && Rest() == old(Rest())[1..]
      ensures r.Failure? ==> r.error == InvalidInput
    {
      if Remaining() < 1 {
        return Failure(InvalidInput);
      }
      r := Success(data[pos]);
      pos := pos + 1;
    }

    method Bytes(length: nat) returns (r: Result<seq<byte>, BasmError>)
      requires Valid()
      modifies this`pos
      ensures Valid()
      ensures Outcome(r, Rest()) == Take(old(Rest()), length)
    {
      if length > Remaining() {
        return Failure(InvalidInput);
      }
      var end := pos + length;
      r := Success(data[pos..end]);
      ghost var s := Rest();
      pos := end;
      assert s[..length] == r.value && s[length..] == Rest();
    }

    method CompactSizeField() returns (r: Result<nat, BasmError>)
      requires Valid()
      modifies this`pos
      ensures Valid()
      ensures Outcome(r, Rest()) == ParseCompactSize(old(Rest()))
      ensures r.Failure? ==> r.error == InvalidInput
    {
      ghost var s := Rest();
      var prefix :- Byte();
      var width, minimum: nat;
      match prefix {
        case 0xfd => width, minimum := 2, 0xfd;
        case 0xfe => width, minimum := 4, 0x10000;
        case 0xff => width, minimum := 8, 0x100000000;
        case _ => return Success(prefix);
      }
      var encoded :- Bytes(width);
      assert encoded == s[1..1 + width] && Rest() == s[1 + width..];
      var value := FromLittleEndian(encoded);
      if value < minimum {
        return Failure(InvalidInput);
      }
      return Success(value);
    }
  }
}
