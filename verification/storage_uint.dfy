/** Decimal storage integers (pkg/core/engine/admission_storage.go, pkg/storage/mongodb/encoding.go). */
module StorageUint {
  import opened Bytes
  import opened Text
  import opened Tokens
  import opened Wrappers

  datatype StorageError = InvalidStorageUint64 | InvalidStorageOutputIndex | TokenConflict

  const EncodedLength: nat := 20

  predicate IsDigit(c: char) {
    '0' <= c <= '9'
  }

  predicate AllDigits(s: string) {
    forall i :: 0 <= i < |s| ==> IsDigit(s[i])
  }

  function DigitChar(n: nat): (c: char)
    requires n < 10
    ensures IsDigit(c)
  {
    '0' + n as char
  }

  function DigitValue(c: char): (n: nat)
    requires IsDigit(c)
    ensures n < 10
  {
    (c - '0') as nat
  }

  function Front(s: string): string
    requires s != []
  {
    s[..|s| - 1]
  }

  function Last(s: string): char
    requires s != []
  {
    s[|s| - 1]
  }

  /** The number that digits denote. */
  function Value(s: string): nat
    requires AllDigits(s)
  {
    if s == [] then 0 else 10 * Value(Front(s)) + DigitValue(Last(s))
  }

  /** What strconv.FormatUint and strconv.Itoa print. */
  function Decimal(n: nat): (s: string)
    ensures s != [] && AllDigits(s)
  {
    if n < 10 then [DigitChar(n)] else Decimal(n / 10) + [DigitChar(n % 10)]
  }

  /** The last `width` digits of n, with leading zeroes. */
  function Padded(n: nat, width: nat): (s: string)
    ensures |s| == width && AllDigits(s)
  {
    if width == 0 then [] else Padded(n / 10, width - 1) + [DigitChar(n % 10)]
  }

  function Pow10(e: nat): (r: nat)
    ensures r >= 1
  {
    if e == 0 then 1 else 10 * Pow10(e - 1)
  }

  // Digits and numbers

  lemma {:induction false} ValueOfDecimal(n: nat)
    ensures Value(Decimal(n)) == n
  {
    if n >= 10 {
      ValueOfDecimal(n / 10);
      assert Front(Decimal(n)) == Decimal(n / 10);
    }
  }

  lemma {:induction false} DecimalHasNoLeadingZero(n: nat)
    ensures n > 0 ==> Decimal(n)[0] != '0'
  {
    if n >= 10 {
      DecimalHasNoLeadingZero(n / 10);
    }
  }

  lemma {:induction false} DecimalLength(n: nat, width: nat)
    requires n < Pow10(width) && width > 0
    ensures |Decimal(n)| <= width
  {
    if n >= 10 {
      DecimalLength(n / 10, width - 1);
    }
  }

  /** A number has one decimal text without leading zeroes. */
  lemma {:induction false} DecimalOfValue(s: string)
    requires s != [] && AllDigits(s) && (|s| > 1 ==> s[0] != '0')
    ensures Decimal(Value(s)) == s
    ensures |s| > 1 ==> Value(s) >= 10
  {
    var v := Value(Front(s));
    var last := DigitValue(Last(s));
    assert s == Front(s) + [Last(s)];
    assert DigitChar(last) == Last(s);
    if |s| > 1 {
      DecimalOfValue(Front(s));
      if |s| == 2 {
        assert Value(Front(s)) == 10 * Value(Front(Front(s))) + DigitValue(s[0]);
      }
      assert (10 * v + last) / 10 == v && (10 * v + last) % 10 == last;
    }
  }

  lemma {:induction false} ValueOfPadded(n: nat, width: nat)
    requires n < Pow10(width)
    ensures Value(Padded(n, width)) == n
  {
    if width > 0 {
      ValueOfPadded(n / 10, width - 1);
      assert Front(Padded(n, width)) == Padded(n / 10, width - 1);
    }
  }

  lemma {:induction false} PaddedOfValue(s: string)
    requires AllDigits(s)
    ensures Padded(Value(s), |s|) == s && Value(s) < Pow10(|s|)
  {
    if s != [] {
      PaddedOfValue(Front(s));
      var v := Value(Front(s));
      var last := DigitValue(Last(s));
      assert (10 * v + last) / 10 == v && (10 * v + last) % 10 == last;
      assert DigitChar(last) == Last(s);
      assert s == Front(s) + [Last(s)];
    }
  }

  /** Digits of one length compare byte-wise as their numbers do. */
  lemma {:induction false} OrderIsNumeric(s: string, t: string)
    requires AllDigits(s) && AllDigits(t) && |s| == |t|
    ensures Less(s, t) <==> Value(s) < Value(t)
    ensures s == t <==> Value(s) == Value(t)
  {
    if s != [] {
      OrderIsNumeric(Front(s), Front(t));
      LessAtLast(Front(s), Last(s), Front(t), Last(t));
      assert s == Front(s) + [Last(s)] && t == Front(t) + [Last(t)];
      assert DigitValue(Last(s)) < DigitValue(Last(t)) <==> Last(s) < Last(t);
    }
  }

  lemma {:induction false} Pow10Sum(d: nat, e: nat)
    ensures Pow10(d + e) == Pow10(d) * Pow10(e)
  {
    if e > 0 {
      Pow10Sum(d, e - 1);
      assert Pow10(d + e) == 10 * (Pow10(d) * Pow10(e - 1));
    }
  }

  lemma Pow10Values()
    ensures Pow10(5) == 100_000 && Pow10(10) == 100_000 * 100_000
    ensures Pow10(EncodedLength) == 100_000_000_000_000_000_000
  {
    assert Pow10(2) == 100 && Pow10(3) == 1000;
    Pow10Sum(2, 3);
    Pow10Sum(5, 5);
    Pow10Sum(10, 10);
  }

  lemma TwentyDigitsSuffice()
    ensures TwoTo64 < Pow10(EncodedLength)
  {
    Pow10Values();
  }

  // Canonical text

  function ParseStorageUint64(value: string): Result<nat, StorageError> {
    if |value| == 0 || |value| > 20 || (|value| > 1 && value[0] == '0') then Failure(InvalidStorageUint64)
    else if !AllDigits(value) then Failure(InvalidStorageUint64)
    else if Value(value) >= TwoTo64 then Failure(InvalidStorageUint64)
    else Success(Value(value))
  }

  /** Accepted texts are exactly the decimal texts of 64-bit integers, one for each. */
  lemma ParsesExactlyCanonicalText(value: string, n: nat)
    ensures ParseStorageUint64(value) == Success(n) <==> n < TwoTo64 && value == Decimal(n)
  {
    ValueOfDecimal(n);
    DecimalHasNoLeadingZero(n);
    TwentyDigitsSuffice();
    if n < TwoTo64 {
      DecimalLength(n, EncodedLength);
    }
    if ParseStorageUint64(value).Success? {
      DecimalOfValue(value);
    }
    if n == 0 {
      assert |Decimal(n)| == 1;
    }
  }

  function ParseStorageOutputIndex(value: string): (r: Result<nat, StorageError>)
    ensures r.Success? <==> ParseStorageUint64(value).Success? && ParseStorageUint64(value).value < TwoTo32
  {
    var parsed :- ParseStorageUint64(value);
    if parsed > 0xFFFF_FFFF then Failure(InvalidStorageOutputIndex) else Success(parsed)
  }

  /** An index is accepted exactly as the canonical text of a 32-bit number; other 64-bit numbers have their own error. */
  lemma OutputIndexIsSmall(value: string, n: nat)
    ensures ParseStorageOutputIndex(value) == Success(n) <==> n < TwoTo32 && value == Decimal(n)
    ensures TwoTo32 <= n < TwoTo64 && value == Decimal(n) ==>
              ParseStorageOutputIndex(value) == Failure(InvalidStorageOutputIndex)
    ensures ParseStorageOutputIndex(value) == Failure(InvalidStorageUint64) ==> n >= TwoTo64 || value != Decimal(n)
  {
    ParsesExactlyCanonicalText(value, n);
  }

  // Fixed-width text

  function EncodeUint64(value: string): Result<string, StorageError> {
    var n :- ParseStorageUint64(value);
    Success(Padded(n, EncodedLength))
  }

  function DecodeUint64(value: string): Result<string, StorageError> {
    if |value| != EncodedLength || !AllDigits(value) then Failure(InvalidStorageUint64)
    else if Value(value) >= TwoTo64 then Failure(InvalidStorageUint64)
    else Success(Decimal(Value(value)))
  }

  /** Canonical text survives encoding. */
  lemma DecodeEncode(value: string)
    requires ParseStorageUint64(value).Success?
    ensures EncodeUint64(value).Success? && DecodeUint64(EncodeUint64(value).value) == Success(value)
  {
    var n := ParseStorageUint64(value).value;
    ParsesExactlyCanonicalText(value, n);
    TwentyDigitsSuffice();
    ValueOfPadded(n, EncodedLength);
  }

  /** Fixed-width text survives decoding: each integer has one. */
  lemma EncodeDecode(value: string)
    requires DecodeUint64(value).Success?
    ensures EncodeUint64(DecodeUint64(value).value) == Success(value)
  {
    var n := Value(value);
    ParsesExactlyCanonicalText(Decimal(n), n);
    PaddedOfValue(value);
  }

  /** The stored texts compare byte-wise as the integers do, over all 64-bit values. */
  lemma EncodingKeepsOrder(a: string, b: string)
    requires EncodeUint64(a).Success? && EncodeUint64(b).Success?
    ensures Less(EncodeUint64(a).value, EncodeUint64(b).value) <==>
            ParseStorageUint64(a).value < ParseStorageUint64(b).value
  {
    var m, n := ParseStorageUint64(a).value, ParseStorageUint64(b).value;
    TwentyDigitsSuffice();
    ValueOfPadded(m, EncodedLength);
    ValueOfPadded(n, EncodedLength);
    OrderIsNumeric(Padded(m, EncodedLength), Padded(n, EncodedLength));
  }

  // Tokens

  function NextToken(token: string): Result<string, StorageError> {
    var value :- DecodeUint64(token);
    var parsed := ParseStorageUint64(value);
    if parsed.Failure? || parsed.value == TwoTo64 - 1 then Failure(TokenConflict)
    else EncodeUint64(Decimal(parsed.value + 1))
  }

  /** A token has a successor unless it is the last one; the successor is one more, and larger byte-wise. */
  lemma NextTokenCounts(token: string)
    requires DecodeUint64(token).Success?
    ensures NextToken(token).Success? <==> Value(token) < TwoTo64 - 1
    ensures NextToken(token).Success? ==>
      var next := NextToken(token).value;
      DecodeUint64(next).Success? && Value(next) == Value(token) + 1 && Less(token, next)
    ensures TokenAfter(Value(token)) == if NextToken(token).Success? then Some(Value(NextToken(token).value)) else None
  {
    var n := Value(token);
    ParsesExactlyCanonicalText(Decimal(n), n);
    if n < TwoTo64 - 1 {
      ParsesExactlyCanonicalText(Decimal(n + 1), n + 1);
      TwentyDigitsSuffice();
      ValueOfPadded(n + 1, EncodedLength);
      OrderIsNumeric(token, Padded(n + 1, EncodedLength));
    }
  }

  // The generated pattern

  /** One alternative of the pattern: fixed text, or a prefix, one digit up to `upper` and any `tail` digits. */
  datatype Alternative = Exact(text: string) | Below(prefix: string, upper: char, tail: nat)

  predicate Matches(a: Alternative, s: string) {
    match a
    case Exact(text) => s == text
    case Below(prefix, upper, tail) =>
      && |s| == |prefix| + 1 + tail
      && prefix == s[..|prefix|]
      && '0' <= s[|prefix|] <= upper
      && AllDigits(s[|prefix| + 1..])
  }

  ghost predicate MatchesAny(alternatives: seq<Alternative>, s: string) {
    exists i :: 0 <= i < |alternatives| && Matches(alternatives[i], s)
  }

  const Maximum: string := "18446744073709551615"

  /** s agrees with m before position i and is smaller there. */
  predicate FallsBelowAt(s: string, m: string, i: nat) {
    i < |s| && i < |m| && s[..i] == m[..i] && s[i] < m[i]
  }

  lemma {:induction false} LessFallsBelow(s: string, m: string)
    requires |s| == |m|
    ensures Less(s, m) <==> exists i: nat :: FallsBelowAt(s, m, i)
  {
    if s != [] {
      LessFallsBelow(s[1..], m[1..]);
      if s[0] < m[0] {
        assert FallsBelowAt(s, m, 0);
      }
      if s[0] == m[0] && Less(s[1..], m[1..]) {
        var i: nat :| FallsBelowAt(s[1..], m[1..], i);
        assert s[..i + 1] == [s[0]] + s[1..][..i] && m[..i + 1] == [m[0]] + m[1..][..i];
        assert FallsBelowAt(s, m, i + 1);
      }
      if i: nat :| FallsBelowAt(s, m, i) {
        if i > 0 {
          assert s[0] == s[..i][0] == m[..i][0] == m[0];
          assert s[1..][..i - 1] == s[..i][1..] == m[..i][1..] == m[1..][..i - 1];
          assert FallsBelowAt(s[1..], m[1..], i - 1);
        }
      }
    }
  }

  lemma {:induction false} ValueByParts(s: string, t: string)
    requires AllDigits(s) && AllDigits(t)
    ensures AllDigits(s + t) && Value(s + t) == Value(s) * Pow10(|t|) + Value(t)
  {
    if t == [] {
      assert s + t == s;
    } else {
      var u := Front(t);
      ValueByParts(s, u);
      assert Front(s + t) == s + u && Last(s + t) == Last(t);
      ShiftDigit(Value(s), Pow10(|u|), Value(u), DigitValue(Last(t)));
    }
  }

  lemma ShiftDigit(high: nat, power: nat, low: nat, digit: nat)
    ensures 10 * (high * power + low) + digit == high * (10 * power) + (10 * low + digit)
  {
  }

  lemma MaximumIsLargest()
    ensures AllDigits(Maximum) && |Maximum| == EncodedLength && Value(Maximum) == TwoTo64 - 1
  {
    hide Value, Pow10;
    var a, b, c, d := "18446", "74407", "37095", "51615";
    assert Maximum == (a + b) + (c + d);
    FiveDigits(a, 18446);
    FiveDigits(b, 74407);
    FiveDigits(c, 37095);
    FiveDigits(d, 51615);
    Pow10Values();
    ValueByParts(a, b);
    ValueByParts(c, d);
    ValueByParts(a + b, c + d);
  }

  lemma FiveDigits(s: string, n: nat)
    requires |s| == 5 && AllDigits(s)
    requires n == 10 * (10 * (10 * (10 * DigitValue(s[0]) + DigitValue(s[1])) + DigitValue(s[2])) + DigitValue(s[3])) + DigitValue(s[4])
    ensures Value(s) == n
  {
    assert Value(s[..1]) == DigitValue(s[0]);
    assert Front(s[..2]) == s[..1] && Front(s[..3]) == s[..2] && Front(s[..4]) == s[..3] && Front(s) == s[..4];
    assert Value(s[..2]) == 10 * Value(s[..1]) + DigitValue(s[1]);
    assert Value(s[..3]) == 10 * Value(s[..2]) + DigitValue(s[2]);
    assert Value(s[..4]) == 10 * Value(s[..3]) + DigitValue(s[3]);
  }

  /** The alternative for digit i says that a string of digits falls below the maximum there. */
  lemma AlternativeFallsBelow(m: string, i: nat, s: string)
    requires AllDigits(m) && i < |m| && m[i] != '0'
    ensures Matches(Below(m[..i], m[i] - 1 as char, |m| - i - 1), s) <==>
            |s| == |m| && AllDigits(s) && FallsBelowAt(s, m, i)
  {
    var a := Below(m[..i], m[i] - 1 as char, |m| - i - 1);
    if Matches(a, s) {
      forall j | 0 <= j < |s|
        ensures IsDigit(s[j])
      {
        if j < i {
          assert s[j] == s[..i][j] == m[j];
        } else if j > i {
          assert s[j] == s[i + 1..][j - i - 1];
        }
      }
    }
  }

  ghost predicate FallsBelowBefore(s: string, m: string, n: nat) {
    exists i: nat :: i < n && FallsBelowAt(s, m, i)
  }

  /** The pattern built from the maximum accepts exactly the texts that decode. */
  method SchemaUint64() returns (alternatives: seq<Alternative>)
    ensures forall s :: MatchesAny(alternatives, s) <==> DecodeUint64(s).Success?
  {
    var maximum := Maximum;
    MaximumIsLargest();
    hide Matches, MatchesAny, Value, FallsBelowAt, FallsBelowBefore;
    alternatives := [Exact(maximum)];
    ExactOnly(maximum);
    NothingBelowBeforeStart(maximum);
    var i := 0;
    while i < |maximum|
      invariant 0 <= i <= |maximum|
      invariant forall s :: MatchesAny(alternatives, s) <==>
        s == maximum || (|s| == |maximum| && AllDigits(s) && FallsBelowBefore(s, maximum, i))
    {
      var digit := maximum[i];
      if digit != '0' {
        var a := Below(maximum[..i], digit - 1 as char, |maximum| - i - 1);
        forall s
          ensures MatchesAny(alternatives + [a], s) <==>
            s == maximum || (|s| == |maximum| && AllDigits(s) && FallsBelowBefore(s, maximum, i + 1))
        {
          MatchesOneMore(alternatives, a, s);
          AlternativeFallsBelow(maximum, i, s);
          FallsBelowNext(s, maximum, i);
        }
        alternatives := alternatives + [a];
      } else {
        forall s | AllDigits(s)
          ensures FallsBelowBefore(s, maximum, i + 1) <==> FallsBelowBefore(s, maximum, i)
        {
          FallsBelowNext(s, maximum, i);
          NothingBelowZero(s, maximum, i);
        }
      }
      i := i + 1;
    }
    forall s
      ensures MatchesAny(alternatives, s) <==> DecodeUint64(s).Success?
    {
      if |s| == |maximum| && AllDigits(s) {
        LessFallsBelow(s, maximum);
        FallsBelowAnywhere(s, maximum);
        OrderIsNumeric(s, maximum);
      }
    }
  }

  lemma ExactOnly(text: string)
    ensures forall s :: MatchesAny([Exact(text)], s) <==> s == text
  {
    forall s
      ensures MatchesAny([Exact(text)], s) <==> s == text
    {
      if s == text {
        assert Matches([Exact(text)][0], s);
      }
    }
  }

  lemma MatchesOneMore(alternatives: seq<Alternative>, a: Alternative, s: string)
    ensures MatchesAny(alternatives + [a], s) <==> MatchesAny(alternatives, s) || Matches(a, s)
  {
    var more := alternatives + [a];
    if MatchesAny(alternatives, s) {
      var i :| 0 <= i < |alternatives| && Matches(alternatives[i], s);
      assert Matches(more[i], s);
    }
    if Matches(a, s) {
      assert Matches(more[|alternatives|], s);
    }
  }

  lemma NothingBelowBeforeStart(m: string)
    ensures forall s :: !FallsBelowBefore(s, m, 0)
  {
  }

  lemma FallsBelowNext(s: string, m: string, n: nat)
    ensures FallsBelowBefore(s, m, n + 1) <==> FallsBelowBefore(s, m, n) || FallsBelowAt(s, m, n)
  {
    hide FallsBelowAt;
  }

  lemma NothingBelowZero(s: string, m: string, i: nat)
    requires AllDigits(s) && i < |m| && m[i] == '0'
    ensures !FallsBelowAt(s, m, i)
  {
  }

  lemma FallsBelowAnywhere(s: string, m: string)
    ensures FallsBelowBefore(s, m, |m|) <==> exists i: nat :: FallsBelowAt(s, m, i)
  {
  }
}
