/** Bytes, 32-byte hashes and little-endian integers. */
module Bytes {

  type byte = x: int | 0 <= x < 256

  const HashSize: nat := 32

  /** A hash in internal byte order. */
  type Hash = h: seq<byte> | |h| == 32 witness Zeros(32)

  const ZeroHash: Hash := Zeros(32)

  function Zeros(n: nat): (r: seq<byte>)
    ensures |r| == n
    ensures forall i :: 0 <= i < n ==> r[i] == 0
  {
    if n == 0 then [] else [0] + Zeros(n - 1)
  }

  /** SHA256d is foreign code: every theorem holds for an arbitrary function from byte strings to hashes. */
  type Digest = seq<byte> -> Hash

  const TwoTo16: nat := 0x1_0000
  const TwoTo32: nat := 0x1_0000_0000
  const TwoTo64: nat := 0x1_0000_0000_0000_0000

  /** The error sentinels of pkg/core/basm/errors.go that these checks return. */
  datatype BasmError = InvalidInput | LimitExceeded | Inconsistent | Noncontiguous

  /** A value parsed from the front of some bytes, and the bytes behind it. */
  datatype Parsed<+T> = Parsed(value: T, rest: seq<byte>)

  /** Two distinct preimages with one hash. */
  ghost predicate Collision(d: Digest, x: seq<byte>, y: seq<byte>) {
    x != y && d(x) == d(y)
  }

  function Pow2(e: nat): (r: nat)
    ensures r >= 1
  {
    if e == 0 then 1 else 2 * Pow2(e - 1)
  }

  function Pow256(e: nat): (r: nat)
    ensures r >= 1
  {
    if e == 0 then 1 else 256 * Pow256(e - 1)
  }

  /** The low `width` bytes of value, least significant first. */
  function ToLittleEndian(value: nat, width: nat): (r: seq<byte>)
    ensures |r| == width
  {
    if width == 0 then [] else [value % 256] + ToLittleEndian(value / 256, width - 1)
  }

  function FromLittleEndian(s: seq<byte>): nat {
    if s == [] then 0 else s[0] + 256 * FromLittleEndian(s[1..])
  }

  lemma {:induction false} FromLittleEndianBound(s: seq<byte>)
    ensures FromLittleEndian(s) < Pow256(|s|)
  {
    if s != [] {
      FromLittleEndianBound(s[1..]);
    }
  }

  lemma {:induction false} FromToLittleEndian(value: nat, width: nat)
    requires value < Pow256(width)
    ensures FromLittleEndian(ToLittleEndian(value, width)) == value
  {
    if width != 0 {
      FromToLittleEndian(value / 256, width - 1);
      assert ToLittleEndian(value, width)[1..] == ToLittleEndian(value / 256, width - 1);
    }
  }

  lemma {:induction false} ToFromLittleEndian(s: seq<byte>)
    ensures ToLittleEndian(FromLittleEndian(s), |s|) == s
  {
    if s != [] {
      ToFromLittleEndian(s[1..]);
      LowByte(s[0], FromLittleEndian(s[1..]));
      assert s == [s[0]] + s[1..];
    }
  }

  /** Byte k counts multiples of 256^k: the low byte comes first. */
  lemma {:induction false} LittleEndianByte(value: nat, width: nat, k: nat)
    requires k < width
    ensures ToLittleEndian(value, width)[k] == value / Pow256(k) % 256
    decreases k
  {
    if k > 0 {
      LittleEndianByte(value / 256, width - 1, k - 1);
      assert ToLittleEndian(value, width)[k] == ToLittleEndian(value / 256, width - 1)[k - 1];
      DivideTwice(value, Pow256(k - 1));
    }
  }

  lemma DivideTwice(value: nat, power: nat)
    requires power >= 1
    ensures value / 256 / power == value / (256 * power)
  {
    var high, low := value / 256, value % 256;
    var q, r := high / power, high % power;
    assert high == q * power + r;
    assert value == q * (256 * power) + (256 * r + low);
    Quotient(value, 256 * power, q, 256 * r + low);
  }

  lemma Quotient(x: nat, y: nat, q: nat, r: nat)
    requires r < y && x == q * y + r
    ensures x / y == q
  {
    var q', r' := x / y, x % y;
    assert x == q' * y + r' && 0 <= r' < y;
    assert (q - q') * y == r' - r;
    if q > q' {
      AtLeast(q - q', y);
    } else if q < q' {
      AtLeast(q' - q, y);
    }
  }

  lemma AtLeast(n: nat, y: nat)
    requires n >= 1
    ensures n * y >= y
  {
  }

  lemma LowByte(low: byte, high: nat)
    ensures (low + 256 * high) % 256 == low && (low + 256 * high) / 256 == high
  {
  }

  lemma Pow256Values()
    ensures Pow256(1) == 256 && Pow256(2) == TwoTo16 && Pow256(4) == TwoTo32 && Pow256(8) == TwoTo64
  {
    assert Pow256(2) == 256 * Pow256(1);
    assert Pow256(3) == 256 * Pow256(2);
    assert Pow256(4) == 256 * Pow256(3);
    assert Pow256(5) == 256 * Pow256(4);
    assert Pow256(6) == 256 * Pow256(5);
    assert Pow256(7) == 256 * Pow256(6);
    assert Pow256(8) == 256 * Pow256(7);
  }

  lemma FourBytesFit(s: seq<byte>)
    requires |s| == 4
    ensures FromLittleEndian(s) < TwoTo32
  {
    FromLittleEndianBound(s);
    Pow256Values();
  }

  lemma EightBytesFit(s: seq<byte>)
    requires |s| == 8
    ensures FromLittleEndian(s) < TwoTo64
  {
    FromLittleEndianBound(s);
    Pow256Values();
  }
}
