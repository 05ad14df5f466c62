/**
 * What the DER parser reads, octet by octet: tag numbers, lengths and subidentifiers as the numbers
 * their octets denote, every error with the octets that cause it, and the fields of an element.
 */
module DerRules {
  import opened Common
  import opened Der
  import opened DerDecode

  /** The number in the low seven bits of the octets, most significant first. */
  function SevenBits(bytes: seq<Byte>): nat {
    if bytes == [] then 0 else 128 * SevenBits(bytes[..|bytes| - 1]) + bytes[|bytes| - 1] % 128
  }

  /** Octets count in base 256, the last one counting ones. */
  lemma {:induction false} OctetsCount(bytes: seq<Byte>, b: Byte)
    ensures Unsigned([]) == 0 && Unsigned(bytes + [b]) == 256 * Unsigned(bytes) + b
  {
    assert (bytes + [b])[..|bytes|] == bytes;
  }

  // ---------------------------------------------------------------- 32-bit shifts

  /** Which multiple of 2^32 the wrap takes away. */
  lemma WrapOf(x: int) returns (k: int)
    ensures Int32(x) == x - k * 0x1_0000_0000
  {
    k := (x + 0x8000_0000) / 0x1_0000_0000;
  }

  /** A number in range that differs from x by a multiple of 2^32 is x wrapped. */
  lemma WrapIs(x: int, r: int, k: int)
    requires -0x8000_0000 <= r < 0x8000_0000 && r == x - k * 0x1_0000_0000
    ensures Int32(x) == r
  {
    var j := WrapOf(x);
    assert (j - k) * 0x1_0000_0000 == r - Int32(x);
  }

  /** Shifting in seven bits below a wrapped number wraps the number it should have been. */
  lemma ShiftInSeven(x: int, c: nat)
    requires c < 128
    ensures Int32(Int32(x) * 128) + c == Int32(x * 128 + c)
  {
    var j := WrapOf(x);
    var y := Int32(x) * 128;
    var k := WrapOf(y);
    InRangeBy(Int32(y), 128, y, k, c);
    WrapIs(x * 128 + c, Int32(y) + c, j * 128 + k);
  }

  lemma ShiftInEight(x: int, c: nat)
    requires c < 256
    ensures Int32(Int32(x) * 256) + c == Int32(x * 256 + c)
  {
    var j := WrapOf(x);
    var y := Int32(x) * 256;
    var k := WrapOf(y);
    InRangeBy(Int32(y), 256, y, k, c);
    WrapIs(x * 256 + c, Int32(y) + c, j * 256 + k);
  }

  /** A wrapped multiple of the scale leaves room for less than the scale. */
  lemma InRangeBy(r: int, scale: int, y: int, k: int, c: nat)
    requires (scale == 128 || scale == 256) && y % scale == 0 && c < scale
    requires r == y - k * 0x1_0000_0000 && r < 0x8000_0000
    ensures r + c < 0x8000_0000
  {
    if scale == 128 {
      assert r == 128 * (y / 128 - k * 0x200_0000);
    } else {
      assert r == 256 * (y / 256 - k * 0x100_0000);
    }
  }

  // ---------------------------------------------------------------- tag numbers

  lemma OneMoreTagOctet(bytes: seq<Byte>, start: nat, at: nat)
    requires start <= at < |bytes|
    ensures Int32(Int32(SevenBits(bytes[start..at])) * 128) + bytes[at] % 128 == Int32(SevenBits(bytes[start..at + 1]))
  {
    assert bytes[start..at + 1][..at - start] == bytes[start..at];
    ShiftInSeven(SevenBits(bytes[start..at]), bytes[at] % 128);
  }

  /** The tag loop stops after the first octet below 128 or at the end. */
  lemma {:induction false} TagLoopStops(bytes: seq<Byte>, at: nat, acc: int)
    requires at <= |bytes|
    ensures var next := ReadBase128(bytes, at, acc).1;
      && at <= next <= |bytes| && (forall j :: at <= j < next - 1 ==> bytes[j] >= 128)
      && (next == |bytes| || (next > at && bytes[next - 1] < 128))
    decreases |bytes| - at
  {
    if at < |bytes| && bytes[at] >= 128 {
      TagLoopStops(bytes, at + 1, Int32(acc * 128) + bytes[at] % 128);
    }
  }

  /** It returns the number read from `start` on, wrapped. */
  lemma {:induction false} TagLoopReads(bytes: seq<Byte>, start: nat, at: nat, acc: int)
    requires start <= at <= |bytes| && acc == Int32(SevenBits(bytes[start..at]))
    ensures var (n, next) := ReadBase128(bytes, at, acc); n == Int32(SevenBits(bytes[start..next]))
    decreases |bytes| - at
  {
    if at < |bytes| {
      OneMoreTagOctet(bytes, start, at);
      if bytes[at] >= 128 {
        TagLoopReads(bytes, start, at + 1, Int32(acc * 128) + bytes[at] % 128);
      }
    }
  }

  /** Five low bits, or all ones and then the base-128 number of the octets up to the first below 128. */
  lemma TagReads(bytes: seq<Byte>, at: nat)
    requires at < |bytes|
    ensures bytes[at] % 32 != 31 ==> ReadTag(bytes, at) == (bytes[at] % 32, at + 1)
    ensures bytes[at] % 32 == 31 ==>
      var (n, next) := ReadTag(bytes, at);
      && n == Int32(SevenBits(bytes[at + 1..next]))
      && (forall j :: at + 1 <= j < next - 1 ==> bytes[j] >= 128)
      && (next == |bytes| || (next > at + 1 && bytes[next - 1] < 128))
  {
    TagLoopStops(bytes, at + 1, 0);
    TagLoopReads(bytes, at + 1, at + 1, 0);
  }

  // ---------------------------------------------------------------- lengths

  lemma OneMoreLengthOctet(bytes: seq<Byte>, start: nat, at: nat)
    requires start <= at < |bytes|
    ensures Int32(Int32(Unsigned(bytes[start..at])) * 256) + bytes[at] == Int32(Unsigned(bytes[start..at + 1]))
  {
    assert bytes[start..at + 1][..at - start] == bytes[start..at];
    ShiftInEight(Unsigned(bytes[start..at]), bytes[at]);
  }

  lemma {:induction false} OctetLoopReads(bytes: seq<Byte>, start: nat, at: nat, n: nat, acc: int)
    requires start <= at && at + n <= |bytes| && acc == Int32(Unsigned(bytes[start..at]))
    ensures ReadOctets(bytes, at, n, acc) == Int32(Unsigned(bytes[start..at + n]))
    decreases n
  {
    if n > 0 {
      OneMoreLengthOctet(bytes, start, at);
      OctetLoopReads(bytes, start, at + 1, n - 1, Int32(acc * 256) + bytes[at]);
    }
  }

  /** One octet below 128, or 0x81 to 0x84 and then as many octets as its low bits say; every error by its octets. */
  lemma LengthReads(bytes: seq<Byte>, at: nat)
    requires at < |bytes|
    ensures var b, r := bytes[at], ReadLength(bytes, at);
      && (r == Err(IndefiniteLength) <==> b == 0x80)
      && (r == Err(LengthTooLong) <==> b >= 0x85)
      && (r == Err(TruncatedLength) <==> 0x81 <= b <= 0x84 && at + 1 + (b as int - 0x80) > |bytes|)
      && (b < 0x80 ==> r == Ok((b, at + 1)))
      && (0x81 <= b <= 0x84 && at + 1 + (b as int - 0x80) <= |bytes| ==>
            r == Ok((Int32(Unsigned(bytes[at + 1..at + 1 + (b as int - 0x80)])), at + 1 + (b as int - 0x80))))
  {
    if 0x81 <= bytes[at] <= 0x84 && at + 1 + (bytes[at] as int - 0x80) <= |bytes| {
      OctetLoopReads(bytes, at + 1, at + 1, bytes[at] - 0x80, 0);
    }
  }

  // ---------------------------------------------------------------- elements

  /** Class and form are the top three bits of the first octet; value and raw are what the length announces. */
  ghost predicate Describes(node: Node, bytes: seq<Byte>, offset: nat, next: nat, tagNumber: int, contentAt: nat, length: int) {
    && offset < contentAt <= next <= |bytes| && next == contentAt + length
    && node.tag == bytes[offset] && node.tagClass == bytes[offset] / 64
    && (node.constructed <==> bytes[offset] / 32 % 2 == 1)
    && node.tagNumber == tagNumber
    && node.headerLength == contentAt - offset && node.length == length
    && node.value == bytes[contentAt..next] && node.raw == bytes[offset..next]
  }

  /** How an element is refused: the header's error, a value cut off, a wrapped length, or its children's error. */
  ghost predicate Refuses(e: DerError, bytes: seq<Byte>, offset: nat) {
    if offset >= |bytes| then e == UnexpectedEnd
    else
      var lengthAt := ReadTag(bytes, offset).1;
      if lengthAt >= |bytes| then e == TruncatedHeader
      else
        var read := ReadLength(bytes, lengthAt);
        if read.Err? then e == read.error
        else
          var (length, contentAt) := read.value;
          if contentAt + length > |bytes| then e == TruncatedValue
          else if length < 0 then e == WrappedLength
          else bytes[offset] / 32 % 2 == 1 && ParseChildren(bytes[contentAt..contentAt + length], 0) == Err(e)
  }

  /** The element that starts at the offset, as its octets describe it. */
  ghost predicate Accepts(node: Node, next: nat, bytes: seq<Byte>, offset: nat) {
    && offset < |bytes|
    && var (n, lengthAt) := ReadTag(bytes, offset);
    && lengthAt < |bytes| && ReadLength(bytes, lengthAt).Ok?
    && var (length, contentAt) := ReadLength(bytes, lengthAt).value;
    && Describes(node, bytes, offset, next, n, contentAt, length)
    && if node.constructed then ParseChildren(node.value, 0) == Ok(node.children) else node.children == []
  }

  /** An element is described by its own octets, or refused for a stated reason. */
  lemma {:induction false} ElementReads(bytes: seq<Byte>, offset: nat)
    ensures var r := ParseNode(bytes, offset);
      if r.Ok? then Accepts(r.value.0, r.value.1, bytes, offset) else Refuses(r.error, bytes, offset)
  {}

  /** Children follow one another from the front of the value to its end. */
  lemma {:induction false} ChildrenRead(value: seq<Byte>, offset: nat)
    ensures offset >= |value| ==> ParseChildren(value, offset) == Ok([])
    ensures offset < |value| && ParseNode(value, offset).Err? ==> ParseChildren(value, offset) == Err(ParseNode(value, offset).error)
    ensures offset < |value| && ParseNode(value, offset).Ok? ==>
      var (child, next) := ParseNode(value, offset).value; ParseChildren(value, offset) == Prepend([child], ParseChildren(value, next))
  {}

  // ---------------------------------------------------------------- subidentifiers

  lemma {:induction false} SubIdReads(bytes: seq<Byte>, done: nat, at: nat, last: Byte, tail: seq<Byte>)
    requires done <= at <= |bytes| && last < 128 && forall j :: at <= j < |bytes| ==> bytes[j] >= 128
    ensures SubIds(bytes[at..] + [last] + tail, SevenBits(bytes[done..at])) == [SevenBits(bytes[done..] + [last])] + SubIds(tail, 0)
    ensures SubIds(bytes[at..], SevenBits(bytes[done..at])) == []
    decreases |bytes| - at
  {
    var rest := bytes[at..] + [last] + tail;
    if at == |bytes| {
      assert rest[1..] == tail && bytes[done..at] == bytes[done..];
      assert (bytes[done..] + [last])[..|bytes| - done] == bytes[done..];
    } else {
      assert rest[0] == bytes[at] && rest[1..] == bytes[at + 1..] + [last] + tail;
      assert bytes[at..][1..] == bytes[at + 1..];
      assert bytes[done..at + 1][..at - done] == bytes[done..at];
      SubIdReads(bytes, done, at + 1, last, tail);
    }
  }

  /**
   * The part of an object identifier that octets above 127 and a last one below 128 make up is their
   * base-128 number; octets above 127 that no such octet follows make up no part.
   */
  lemma {:induction false} OidPartReads(more: seq<Byte>, last: Byte, tail: seq<Byte>)
    requires last < 128 && forall j :: 0 <= j < |more| ==> more[j] >= 128
    ensures SubIds(more + [last] + tail, 0) == [SevenBits(more + [last])] + SubIds(tail, 0)
    ensures SubIds(more, 0) == []
  {
    assert more[0..] == more && more[0..0] == [];
    SubIdReads(more, 0, 0, last, tail);
  }

  /** The first two parts are read from one octet: 0, 1 or 2, and what is left of it. */
  lemma OidReads(bytes: seq<Byte>)
    ensures bytes == [] ==> DecodeOid(bytes) == None
    ensures bytes != [] ==>
      DecodeOid(bytes) == Some((if bytes[0] < 40 then [0, bytes[0]] else if bytes[0] < 80 then [1, bytes[0] as int - 40] else [2, bytes[0] as int - 80])
                               + SubIds(bytes[1..], 0))
  {}
}
