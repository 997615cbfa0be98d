/** Length-framed fields: the byte streams that identities are digests of. */
module Framing {
  import opened StorageUint

  function Frame(field: string): (r: string)
    ensures r != []
  {
    Decimal(|field|) + ":" + field
  }

  function Stream(fields: seq<string>): string {
    if fields == [] then [] else Frame(fields[0]) + Stream(fields[1..])
  }

  lemma {:induction false} ColonSplits(a: string, x: string, b: string, y: string)
    requires AllDigits(a) && AllDigits(b) && a + ":" + x == b + ":" + y
    ensures a == b && x == y
    decreases |a|
  {
    var s, t := a + ":" + x, b + ":" + y;
    assert s[0] == if a == [] then ':' else a[0];
    assert t[0] == if b == [] then ':' else b[0];
    if a == [] {
      assert x == s[1..] && y == t[1..];
    } else {
      assert s[1..] == a[1..] + ":" + x && t[1..] == b[1..] + ":" + y;
      ColonSplits(a[1..], x, b[1..], y);
      assert a == [a[0]] + a[1..] && b == [b[0]] + b[1..];
    }
  }

  /** The front field of a stream can be read in one way only. */
  lemma FrameDecodes(f: string, rest: string, g: string, rest': string)
    requires Frame(f) + rest == Frame(g) + rest'
    ensures f == g && rest == rest'
  {
    hide Decimal;
    assert Frame(f) + rest == Decimal(|f|) + ":" + (f + rest);
    assert Frame(g) + rest' == Decimal(|g|) + ":" + (g + rest');
    ColonSplits(Decimal(|f|), f + rest, Decimal(|g|), g + rest');
    ValueOfDecimal(|f|);
    ValueOfDecimal(|g|);
    assert f == (f + rest)[..|f|] && g == (g + rest')[..|g|];
    assert rest == (f + rest)[|f|..] && rest' == (g + rest')[|g|..];
  }

  /** No two lists of fields have one stream. tupleID, row keys and both digests rest on this. */
  lemma {:induction false} StreamIsInjective(a: seq<string>, b: seq<string>)
    requires Stream(a) == Stream(b)
    ensures a == b
  {
    hide Frame;
    if a != [] && b != [] {
      FrameDecodes(a[0], Stream(a[1..]), b[0], Stream(b[1..]));
      StreamIsInjective(a[1..], b[1..]);
      assert a == [a[0]] + a[1..] && b == [b[0]] + b[1..];
    }
  }

  lemma {:induction false} StreamAppend(fields: seq<string>, field: string)
    ensures Stream(fields + [field]) == Stream(fields) + Frame(field)
  {
    hide Frame;
    if fields == [] {
      assert [field][1..] == [] && [] + [field] == [field];
      assert Stream([field]) == Frame(field) + [];
    } else {
      StreamAppend(fields[1..], field);
      assert (fields + [field])[1..] == fields[1..] + [field];
    }
  }

  /** The bytes that tupleID hashes. */
  method TupleStream(fields: seq<string>) returns (written: string)
    ensures written == Stream(fields)
  {
    hide Frame;
    written := [];
    var i := 0;
    while i < |fields|
      invariant 0 <= i <= |fields|
      invariant written == Stream(fields[..i])
    {
      StreamAppend(fields[..i], fields[i]);
      assert fields[..i + 1] == fields[..i] + [fields[i]];
      written := written + Frame(fields[i]);
      i := i + 1;
    }
    assert fields[..i] == fields;
  }
}
