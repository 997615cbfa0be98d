/** Merkle paths in the BUMP format and their preflight (pkg/core/basm/wire.go). */
module Bump {
  import opened Anchors
  import opened Bytes
  import opened Wrappers
  import opened WireReader

  /** One node of a level; a duplicate marker (flags 1) carries no hash. */
  datatype Item = Item(offset: nat, flags: byte, hash: seq<byte>)

  datatype MerklePath = MerklePath(blockHeight: nat, levels: seq<seq<Item>>)

  const DuplicateFlag: byte := 1

  /** Offsets of a level are those a tree with 64-bit leaf positions has there. */
  predicate ValidPosition(offset: nat, level: nat) {
    if level >= 64 then offset == 0 else offset <= (TwoTo64 - 1) / Pow2(level)
  }

  /** A position of a level stands for 2^level leaves, the first of which has a 64-bit position. */
  lemma PositionsAreOfLeaves(offset: nat, level: nat)
    ensures level < 64 ==> (ValidPosition(offset, level) <==> offset * Pow2(level) < TwoTo64)
    ensures level >= 64 ==> (ValidPosition(offset, level) <==> offset == 0)
  {
    if level < 64 {
      var p := Pow2(level);
      var q, r := (TwoTo64 - 1) / p, (TwoTo64 - 1) % p;
      assert TwoTo64 - 1 == q * p + r;
      if offset <= q {
        Multiples(offset, q, p);
      } else {
        Multiples(q + 1, offset, p);
        assert (q + 1) * p == q * p + p;
      }
    }
  }

  lemma Multiples(a: nat, b: nat, p: nat)
    requires a <= b
    ensures a * p <= b * p
  {
  }

  predicate ItemWellFormed(item: Item, level: nat) {
    && item.offset < TwoTo64
    && ValidPosition(item.offset, level)
    && item.flags <= 2
    && (if item.flags == DuplicateFlag then item.offset % 2 == 1 && item.hash == [] else |item.hash| == HashSize)
  }

  predicate ItemsWellFormed(items: seq<Item>, level: nat) {
    forall i :: 0 <= i < |items| ==> ItemWellFormed(items[i], level)
  }

  predicate OffsetsDistinct(items: seq<Item>) {
    forall i, j :: 0 <= i < j < |items| ==> items[i].offset != items[j].offset
  }

  predicate HasHash(items: seq<Item>) {
    exists i :: 0 <= i < |items| && items[i].flags != DuplicateFlag
  }

  predicate LevelWellFormed(items: seq<Item>, level: nat) {
    && |items| < TwoTo64
    && ItemsWellFormed(items, level)
    && OffsetsDistinct(items)
    && (level == 0 ==> HasHash(items))
  }

  predicate LevelsWellFormed(levels: seq<seq<Item>>, level: nat) {
    forall i :: 0 <= i < |levels| ==> LevelWellFormed(levels[i], level + i)
  }

  predicate WellFormed(path: MerklePath) {
    path.blockHeight < TwoTo32 && 0 < |path.levels| <= 64 && LevelsWellFormed(path.levels, 0)
  }

  // Serialization

  function ItemBytes(item: Item): seq<byte>
    requires item.offset < TwoTo64
  {
    CompactSize(item.offset) + ([item.flags] + item.hash)
  }

  function ItemsBytes(items: seq<Item>, level: nat): seq<byte>
    requires ItemsWellFormed(items, level)
  {
    if items == [] then [] else ItemBytes(items[0]) + ItemsBytes(items[1..], level)
  }

  function LevelBytes(items: seq<Item>, level: nat): seq<byte>
    requires LevelWellFormed(items, level)
  {
    CompactSize(|items|) + ItemsBytes(items, level)
  }

  function LevelsBytes(levels: seq<seq<Item>>, level: nat): seq<byte>
    requires LevelsWellFormed(levels, level)
  {
    if levels == [] then []
    else
      LevelsBehind(levels, level);
      LevelBytes(levels[0], level) + LevelsBytes(levels[1..], level + 1)
  }

  lemma LevelsBehind(levels: seq<seq<Item>>, level: nat)
    requires LevelsWellFormed(levels, level) && levels != []
    ensures LevelWellFormed(levels[0], level) && LevelsWellFormed(levels[1..], level + 1)
  {
    assert levels[0] == levels[0] && LevelWellFormed(levels[0], level + 0);
    forall i | 0 <= i < |levels[1..]|
      ensures LevelWellFormed(levels[1..][i], level + 1 + i)
    {
      assert LevelWellFormed(levels[i + 1], level + (i + 1));
    }
  }

  function Serialize(path: MerklePath): seq<byte>
    requires WellFormed(path)
  {
    CompactSize(path.blockHeight) + ([|path.levels|] + LevelsBytes(path.levels, 0))
  }

  // The grammar, read forward and without any bound on counts

  predicate OffsetAccepted(offset: nat, level: nat, seen: set<nat>) {
    ValidPosition(offset, level) && offset !in seen
  }

  predicate FlagsAccepted(flags: byte, offset: nat) {
    flags <= 2 && (flags == DuplicateFlag ==> offset % 2 == 1)
  }

  function ParseItem(s: seq<byte>, level: nat, seen: set<nat>): Parse<Item> {
    var offset :- ParseCompactSize(s);
    if !OffsetAccepted(offset.value, level, seen) || offset.rest == [] then Failure(InvalidInput)
    else
      var flags := offset.rest[0];
      if !FlagsAccepted(flags, offset.value) then Failure(InvalidInput)
      else if flags == DuplicateFlag then Success(Parsed(Item(offset.value, flags, []), offset.rest[1..]))
      else
        var hash :- Take(offset.rest[1..], HashSize);
        Success(Parsed(Item(offset.value, flags, hash.value), hash.rest))
  }

  function ParseItems(s: seq<byte>, level: nat, count: nat, seen: set<nat>): Parse<seq<Item>>
    decreases count
  {
    if count == 0 then Success(Parsed([], s))
    else
      var first :- ParseItem(s, level, seen);
      var others :- ParseItems(first.rest, level, count - 1, seen + {first.value.offset});
      Success(Parsed([first.value] + others.value, others.rest))
  }

  function ParseLevel(s: seq<byte>, level: nat): Parse<seq<Item>> {
    var count :- ParseCompactSize(s);
    var items :- ParseItems(count.rest, level, count.value, {});
    if level == 0 && !HasHash(items.value) then Failure(InvalidInput) else Success(items)
  }

  function ParseLevels(s: seq<byte>, level: nat, count: nat): Parse<seq<seq<Item>>>
    decreases count
  {
    if count == 0 then Success(Parsed([], s))
    else
      var first :- ParseLevel(s, level);
      var others :- ParseLevels(first.rest, level + 1, count - 1);
      Success(Parsed([first.value] + others.value, others.rest))
  }

  function ParseHeights(s: seq<byte>): Parse<(nat, nat)> {
    var blockHeight :- ParseCompactSize(s);
    if blockHeight.value >= TwoTo32 || blockHeight.rest == [] then Failure(InvalidInput)
    else
      var treeHeight := blockHeight.rest[0];
      if treeHeight == 0 || treeHeight > 64 then Failure(InvalidInput)
      else Success(Parsed((blockHeight.value, treeHeight), blockHeight.rest[1..]))
  }

  function ParseMerklePath(s: seq<byte>): Result<MerklePath, BasmError> {
    var heights :- ParseHeights(s);
    var levels :- ParseLevels(heights.rest, 0, heights.value.1);
    if levels.rest != [] then Failure(InvalidInput) else Success(MerklePath(heights.value.0, levels.value))
  }

  // Remembered offsets are the same as distinct offsets

  ghost predicate OffsetsAvoid(items: seq<Item>, seen: set<nat>) {
    forall i :: 0 <= i < |items| ==> items[i].offset !in seen
  }

  lemma AvoidingBehind(items: seq<Item>, seen: set<nat>)
    requires items != []
    ensures OffsetsDistinct(items) && OffsetsAvoid(items, seen) <==>
            && items[0].offset !in seen
            && OffsetsDistinct(items[1..]) && OffsetsAvoid(items[1..], seen + {items[0].offset})
  {
    var others := items[1..];
    assert forall i :: 0 < i < |items| ==> items[i] == others[i - 1];
    if OffsetsDistinct(others) && OffsetsAvoid(others, seen + {items[0].offset}) && items[0].offset !in seen {
      forall i, j | 0 <= i < j < |items|
        ensures items[i].offset != items[j].offset
      {
        assert items[j] == others[j - 1];
      }
      forall i | 0 <= i < |items|
        ensures items[i].offset !in seen
      {
        if i > 0 {
          assert items[i] == others[i - 1];
        }
      }
    }
  }

  // Parsing inverts serialization

  lemma ItemInverts(item: Item, level: nat, seen: set<nat>, rest: seq<byte>)
    requires ItemWellFormed(item, level) && item.offset !in seen
    ensures ParseItem(ItemBytes(item) + rest, level, seen) == Success(Parsed(item, rest))
  {
    hide CompactSize, ParseCompactSize, ValidPosition;
    var behind := [item.flags] + (item.hash + rest);
    assert ItemBytes(item) + rest == CompactSize(item.offset) + behind;
    ParseCompactSizeInverts(item.offset, behind);
    assert behind[1..] == item.hash + rest;
    TakeInverts(item.hash, rest);
  }

  lemma {:induction false} ItemsInvert(items: seq<Item>, level: nat, seen: set<nat>, rest: seq<byte>)
    requires ItemsWellFormed(items, level) && OffsetsDistinct(items) && OffsetsAvoid(items, seen)
    ensures ParseItems(ItemsBytes(items, level) + rest, level, |items|, seen) == Success(Parsed(items, rest))
    decreases |items|
  {
    hide ParseItem, ItemBytes, ValidPosition;
    if items == [] {
      assert ItemsBytes(items, level) + rest == rest;
    } else {
      var behind := ItemsBytes(items[1..], level) + rest;
      assert ItemsBytes(items, level) + rest == ItemBytes(items[0]) + behind;
      ItemInverts(items[0], level, seen, behind);
      AvoidingBehind(items, seen);
      ItemsInvert(items[1..], level, seen + {items[0].offset}, rest);
      assert items == [items[0]] + items[1..];
    }
  }

  lemma LevelInverts(items: seq<Item>, level: nat, rest: seq<byte>)
    requires LevelWellFormed(items, level)
    ensures ParseLevel(LevelBytes(items, level) + rest, level) == Success(Parsed(items, rest))
  {
    hide CompactSize, ParseCompactSize, ParseItems, ItemsBytes;
    var behind := ItemsBytes(items, level) + rest;
    assert LevelBytes(items, level) + rest == CompactSize(|items|) + behind;
    ParseCompactSizeInverts(|items|, behind);
    ItemsInvert(items, level, {}, rest);
  }

  lemma {:induction false} LevelsInvert(levels: seq<seq<Item>>, level: nat, rest: seq<byte>)
    requires LevelsWellFormed(levels, level)
    ensures ParseLevels(LevelsBytes(levels, level) + rest, level, |levels|) == Success(Parsed(levels, rest))
    decreases |levels|
  {
    hide ParseLevel, LevelBytes, LevelWellFormed;
    if levels == [] {
      assert LevelsBytes(levels, level) + rest == rest;
    } else {
      LevelsBehind(levels, level);
      var behind := LevelsBytes(levels[1..], level + 1) + rest;
      assert LevelsBytes(levels, level) + rest == LevelBytes(levels[0], level) + behind;
      LevelInverts(levels[0], level, behind);
      LevelsInvert(levels[1..], level + 1, rest);
      assert levels == [levels[0]] + levels[1..];
    }
  }

  lemma ParseSerialize(path: MerklePath)
    requires WellFormed(path)
    ensures ParseMerklePath(Serialize(path)) == Success(path)
  {
    hide CompactSize, ParseCompactSize, ParseLevels, LevelsBytes, LevelsWellFormed;
    var levels := LevelsBytes(path.levels, 0);
    var behind := [|path.levels|] + levels;
    ParseCompactSizeInverts(path.blockHeight, behind);
    assert behind[1..] == levels == levels + [];
    LevelsInvert(path.levels, 0, []);
  }

  // Serialization inverts parsing

  lemma ItemBytesOf(s: seq<byte>, level: nat, seen: set<nat>)
    requires ParseItem(s, level, seen).Success?
    ensures var p := ParseItem(s, level, seen).value;
      ItemWellFormed(p.value, level) && p.value.offset !in seen && s == ItemBytes(p.value) + p.rest
  {
    hide CompactSize, ParseCompactSize, ValidPosition;
    CompactSizeInverts(s);
    var offset := ParseCompactSize(s).value;
    var behind := offset.rest[1..];
    assert offset.rest == [offset.rest[0]] + behind;
    if offset.rest[0] != DuplicateFlag {
      assert behind == behind[..HashSize] + behind[HashSize..];
    }
  }

  lemma {:induction false} ItemsBytesOf(s: seq<byte>, level: nat, count: nat, seen: set<nat>)
    requires ParseItems(s, level, count, seen).Success?
    ensures var p := ParseItems(s, level, count, seen).value;
      && |p.value| == count && ItemsWellFormed(p.value, level)
      && OffsetsDistinct(p.value) && OffsetsAvoid(p.value, seen)
      && s == ItemsBytes(p.value, level) + p.rest
    ensures |s| >= 2 * count
    decreases count
  {
    hide ParseItem, ValidPosition;
    if count > 0 {
      ItemBytesOf(s, level, seen);
      var first := ParseItem(s, level, seen).value;
      var seen' := seen + {first.value.offset};
      ItemsBytesOf(first.rest, level, count - 1, seen');
      var others := ParseItems(first.rest, level, count - 1, seen').value;
      var p := ParseItems(s, level, count, seen).value;
      assert p.value[0] == first.value && p.value[1..] == others.value;
      AvoidingBehind(p.value, seen);
      ItemsJoin(p.value, level);
      assert s == ItemBytes(first.value) + (ItemsBytes(others.value, level) + others.rest);
    }
  }

  lemma ItemsJoin(items: seq<Item>, level: nat)
    requires items != [] && ItemWellFormed(items[0], level) && ItemsWellFormed(items[1..], level)
    ensures ItemsWellFormed(items, level)
  {
    hide ItemWellFormed;
    forall i | 0 <= i < |items|
      ensures ItemWellFormed(items[i], level)
    {
      if i > 0 {
        assert items[i] == items[1..][i - 1];
      }
    }
  }

  lemma LevelBytesOf(s: seq<byte>, level: nat)
    requires ParseLevel(s, level).Success?
    ensures var p := ParseLevel(s, level).value;
      LevelWellFormed(p.value, level) && s == LevelBytes(p.value, level) + p.rest
    ensures |s| >= |ParseLevel(s, level).value.rest| + 1
  {
    hide CompactSize, ParseCompactSize, ParseItems, ItemsBytes, HasHash;
    CompactSizeInverts(s);
    var count := ParseCompactSize(s).value;
    ItemsBytesOf(count.rest, level, count.value, {});
    var p := ParseLevel(s, level).value;
    assert s == CompactSize(count.value) + (ItemsBytes(p.value, level) + p.rest);
  }

  lemma {:induction false} LevelsBytesOf(s: seq<byte>, level: nat, count: nat)
    requires ParseLevels(s, level, count).Success?
    ensures var p := ParseLevels(s, level, count).value;
      |p.value| == count && LevelsWellFormed(p.value, level) && s == LevelsBytes(p.value, level) + p.rest
    ensures |s| >= count
    decreases count
  {
    hide ParseLevel, LevelBytes, LevelWellFormed;
    if count > 0 {
      LevelBytesOf(s, level);
      var first := ParseLevel(s, level).value;
      LevelsBytesOf(first.rest, level + 1, count - 1);
      var others := ParseLevels(first.rest, level + 1, count - 1).value;
      var p := ParseLevels(s, level, count).value;
      assert p.value[0] == first.value && p.value[1..] == others.value;
      LevelsJoin(p.value, level);
      assert s == LevelBytes(first.value, level) + (LevelsBytes(others.value, level + 1) + others.rest);
    }
  }

  lemma LevelsJoin(levels: seq<seq<Item>>, level: nat)
    requires levels != [] && LevelWellFormed(levels[0], level) && LevelsWellFormed(levels[1..], level + 1)
    ensures LevelsWellFormed(levels, level)
  {
    hide LevelWellFormed;
    forall i | 0 <= i < |levels|
      ensures LevelWellFormed(levels[i], level + i)
    {
      if i > 0 {
        assert LevelWellFormed(levels[1..][i - 1], level + 1 + (i - 1));
      }
    }
  }

  lemma SerializeParse(s: seq<byte>)
    requires ParseMerklePath(s).Success?
    ensures WellFormed(ParseMerklePath(s).value) && Serialize(ParseMerklePath(s).value) == s
  {
    hide CompactSize, ParseCompactSize, ParseLevels, LevelsBytes, LevelsWellFormed;
    CompactSizeInverts(s);
    var heights := ParseHeights(s).value;
    LevelsBytesOf(heights.rest, 0, heights.value.1);
    var behind := ParseCompactSize(s).value.rest;
    assert behind == [behind[0]] + behind[1..];
  }

  ghost predicate IsMerklePath(data: seq<byte>) {
    exists path: MerklePath :: WellFormed(path) && Serialize(path) == data
  }

  lemma ParsesExactlyMerklePaths(data: seq<byte>)
    ensures ParseMerklePath(data).Success? <==> IsMerklePath(data)
  {
    if ParseMerklePath(data).Success? {
      SerializeParse(data);
    }
    if path: MerklePath :| WellFormed(path) && Serialize(path) == data {
      ParseSerialize(path);
    }
  }

  /** The bytes of a path determine it. */
  lemma SerializeIsInjective(path: MerklePath, path': MerklePath)
    requires WellFormed(path) && WellFormed(path') && Serialize(path) == Serialize(path')
    ensures path == path'
  {
    ParseSerialize(path);
    ParseSerialize(path');
  }

  // The preflight: bounds every count by the bytes left and remembers the offsets of a level

  lemma ItemFailure(s: seq<byte>, level: nat, seen: set<nat>)
    ensures ParseItem(s, level, seen).Failure? ==> ParseItem(s, level, seen).error == InvalidInput
  {
  }

  lemma {:induction false} ItemsFailure(s: seq<byte>, level: nat, count: nat, seen: set<nat>)
    ensures ParseItems(s, level, count, seen).Failure? ==> ParseItems(s, level, count, seen).error == InvalidInput
    decreases count
  {
    ItemFailure(s, level, seen);
    hide ParseItem;
    if count > 0 && ParseItem(s, level, seen).Success? {
      var first := ParseItem(s, level, seen).value;
      ItemsFailure(first.rest, level, count - 1, seen + {first.value.offset});
    }
  }

  lemma TooManyItems(s: seq<byte>, level: nat, count: nat)
    requires count > |s| / 2
    ensures ParseItems(s, level, count, {}) == Failure(InvalidInput)
  {
    ItemsFailure(s, level, count, {});
    if ParseItems(s, level, count, {}).Success? {
      ItemsBytesOf(s, level, count, {});
    }
  }

  lemma {:induction false} LevelsFailure(s: seq<byte>, level: nat, count: nat)
    ensures ParseLevels(s, level, count).Failure? ==> ParseLevels(s, level, count).error == InvalidInput
    decreases count
  {
    hide ParseItems, ParseCompactSize, HasHash;
    if count > 0 {
      LevelFailure(s, level);
      if ParseLevel(s, level).Success? {
        LevelsFailure(ParseLevel(s, level).value.rest, level + 1, count - 1);
      }
    }
  }

  lemma LevelFailure(s: seq<byte>, level: nat)
    ensures ParseLevel(s, level).Failure? ==> ParseLevel(s, level).error == InvalidInput
  {
    hide HasHash;
    if ParseCompactSize(s).Success? {
      var count := ParseCompactSize(s).value;
      ItemsFailure(count.rest, level, count.value, {});
    }
  }

  lemma TooManyLevels(s: seq<byte>, level: nat, count: nat)
    requires count > |s|
    ensures ParseLevels(s, level, count) == Failure(InvalidInput)
  {
    LevelsFailure(s, level, count);
    if ParseLevels(s, level, count).Success? {
      LevelsBytesOf(s, level, count);
    }
  }

  method PreflightMerkleItem(reader: BoundedWireReader, level: nat, seenOffsets: set<nat>)
    returns (r: Result<bool, BasmError>, ghost item: Parse<Item>, seenOffsets': set<nat>)
    requires reader.Valid()
    modifies reader`pos
    ensures reader.Valid()
    ensures item == ParseItem(old(reader.Rest()), level, seenOffsets)
    ensures r.Failure? ==> item == Failure(r.error) && r.error == InvalidInput
    ensures r.Success? ==>
      && item.Success? && reader.Rest() == item.value.rest
      && r.value == (item.value.value.flags != DuplicateFlag)
      && seenOffsets' == seenOffsets + {item.value.value.offset}
  {
    item := ParseItem(reader.Rest(), level, seenOffsets);
    hide ParseCompactSize, ValidPosition;
    seenOffsets' := seenOffsets;
    var offset :- reader.CompactSizeField();
    if !ValidPosition(offset, level) {
      return Failure(InvalidInput), item, seenOffsets';
    }
    if offset in seenOffsets {
      return Failure(InvalidInput), item, seenOffsets';
    }
    seenOffsets' := seenOffsets + {offset};
    var flags :- reader.Byte();
    if flags >= 4 || flags == 3 {
      return Failure(InvalidInput), item, seenOffsets';
    }
    if flags % 2 != 0 && offset % 2 == 0 {
      return Failure(InvalidInput), item, seenOffsets';
    }
    if flags % 2 != 0 {
      return Success(false), item, seenOffsets';
    }
    var hash :- reader.Bytes(HashSize);
    return Success(true), item, seenOffsets';
  }

  ghost function After<T>(done: seq<T>, p: Parse<seq<T>>): Parse<seq<T>> {
    if p.Failure? then p else Success(Parsed(done + p.value.value, p.value.rest))
  }

  lemma ItemsStep(whole: Parse<seq<Item>>, done: seq<Item>, s: seq<byte>, level: nat, count: nat, seen: set<nat>)
    requires count > 0 && whole == After(done, ParseItems(s, level, count, seen))
    ensures var first := ParseItem(s, level, seen);
      if first.Failure? then whole == Failure(first.error)
      else
        var p := first.value;
        && whole == After(done + [p.value], ParseItems(p.rest, level, count - 1, seen + {p.value.offset}))
        && HasHash(done + [p.value]) == (HasHash(done) || p.value.flags != DuplicateFlag)
  {
    hide ParseItem;
    var first := ParseItem(s, level, seen);
    if first.Success? {
      var p := first.value;
      var others := ParseItems(p.rest, level, count - 1, seen + {p.value.offset});
      if others.Success? {
        assert done + ([p.value] + others.value.value) == done + [p.value] + others.value.value;
      }
      assert (done + [p.value])[|done|] == p.value;
      assert forall i :: 0 <= i < |done| ==> (done + [p.value])[i] == done[i];
    }
  }

  lemma NoItems(done: seq<Item>, s: seq<byte>, level: nat, seen: set<nat>)
    ensures After(done, ParseItems(s, level, 0, seen)) == Success(Parsed(done, s))
  {
    assert done + [] == done;
  }

  method PreflightMerkleLevel(reader: BoundedWireReader, level: nat) returns (r: Result<(), BasmError>)
    requires reader.Valid()
    modifies reader`pos
    ensures reader.Valid()
    ensures Skips(r, reader.Rest(), ParseLevel(old(reader.Rest()), level))
  {
    hide ParseCompactSize, ParseItem, ParseItems, HasHash, After;
    var count :- reader.CompactSizeField();
    ghost var whole := ParseItems(reader.Rest(), level, count, {});
    if count > reader.Remaining() / 2 {
      TooManyItems(reader.Rest(), level, count);
      return Failure(InvalidInput);
    }
    var seenOffsets: set<nat> := {};
    var levelHasHash := false;
    ghost var done: seq<Item> := [];
    AtStart(whole);
    var item := 0;
    while item < count
      invariant reader.Valid() && 0 <= item <= count
      invariant whole == After(done, ParseItems(reader.Rest(), level, count - item, seenOffsets))
      invariant levelHasHash == HasHash(done)
    {
      ItemsStep(whole, done, reader.Rest(), level, count - item, seenOffsets);
      var hasHash, parsed, seen := PreflightMerkleItem(reader, level, seenOffsets);
      if hasHash.Failure? {
        return Failure(hasHash.error);
      }
      done := done + [parsed.value.value];
      seenOffsets := seen;
      levelHasHash := levelHasHash || hasHash.value;
      item := item + 1;
    }
    NoItems(done, reader.Rest(), level, seenOffsets);
    if level == 0 && !levelHasHash {
      return Failure(InvalidInput);
    }
    return Success(());
  }

  lemma AtStart(whole: Parse<seq<Item>>)
    ensures After([], whole) == whole && !HasHash([])
  {
    if whole.Success? {
      assert [] + whole.value.value == whole.value.value;
    }
  }

  method ReadBumpTreeHeight(reader: BoundedWireReader) returns (r: Result<nat, BasmError>)
    requires reader.Valid()
    modifies reader`pos
    ensures reader.Valid()
    ensures r.Failure? ==> r.error == InvalidInput
    ensures var p := ParseHeights(old(reader.Rest()));
      if p.Success? && p.value.value.1 <= |p.value.rest|
      then r == Success(p.value.value.1) && reader.Rest() == p.value.rest
      else r.Failure?
  {
    hide ParseCompactSize;
    var blockHeight :- reader.CompactSizeField();
    if blockHeight >= TwoTo32 {
      return Failure(InvalidInput);
    }
    var treeHeight :- reader.Byte();
    if treeHeight == 0 || treeHeight > 64 || treeHeight > reader.Remaining() {
      return Failure(InvalidInput);
    }
    return Success(treeHeight);
  }

  lemma LevelsStep(whole: Parse<seq<seq<Item>>>, s: seq<byte>, level: nat, count: nat)
    requires count > 0 && SameTail(whole, ParseLevels(s, level, count))
    ensures var first := ParseLevel(s, level);
      if first.Failure? then whole == Failure(first.error)
      else SameTail(whole, ParseLevels(first.value.rest, level + 1, count - 1))
  {
    hide ParseLevel;
  }

  lemma NoLevels(s: seq<byte>, level: nat)
    ensures ParseLevels(s, level, 0) == Success(Parsed([], s))
  {
  }

  /** Only the levels can still refuse once the heights are read; too few bytes for them always do. */
  lemma LevelsDecide(s: seq<byte>)
    ensures ParseHeights(s).Failure? ==> ParseMerklePath(s).Failure?
    ensures ParseHeights(s).Success? ==>
      var heights := ParseHeights(s).value;
      var whole := ParseLevels(heights.rest, 0, heights.value.1);
      && (ParseMerklePath(s).Success? <==> whole.Success? && whole.value.rest == [])
      && (heights.value.1 > |heights.rest| ==> ParseMerklePath(s).Failure?)
  {
    hide ParseHeights;
    if ParseHeights(s).Success? {
      var heights := ParseHeights(s).value;
      if heights.value.1 > |heights.rest| {
        TooManyLevels(heights.rest, 0, heights.value.1);
      }
    }
  }

  /** Accepts exactly the serializations of paths: the bounds on counts and on the height refuse none of them. */
  method PreflightMerklePath(data: seq<byte>) returns (r: Result<(), BasmError>)
    ensures r.Success? <==> IsMerklePath(data)
    ensures r.Failure? ==> r.error == InvalidInput
  {
    ParsesExactlyMerklePaths(data);
    LevelsDecide(data);
    hide ParseHeights, ParseLevel, ParseLevels, ParseMerklePath, IsMerklePath;
    var reader := new BoundedWireReader(data);
    var treeHeight :- ReadBumpTreeHeight(reader);
    ghost var whole := ParseLevels(reader.Rest(), 0, treeHeight);
    var level := 0;
    while level < treeHeight
      invariant reader.Valid() && 0 <= level <= treeHeight
      invariant SameTail(whole, ParseLevels(reader.Rest(), level, treeHeight - level))
    {
      LevelsStep(whole, reader.Rest(), level, treeHeight - level);
      var preflight :- PreflightMerkleLevel(reader, level);
      level := level + 1;
    }
    NoLevels(reader.Rest(), level);
    if reader.Remaining() != 0 {
      return Failure(InvalidInput);
    }
    return Success(());
  }
}
