/**
 * The decoders of src/lib/asn1.ts as they run: loops that advance an offset or an accumulator.
 * `ParseAsn1Node` is proved equal to the parser function of Der; INTEGER and OBJECT IDENTIFIER
 * decoding (ITU-T X.690 sections 8.3 and 8.19) are proved against what the encodings mean.
 */
module DerDecode {
  import opened Common
  import opened Der

  // ---------------------------------------------------------------- the parser

  function Prepend(nodes: seq<Node>, rest: Outcome<seq<Node>>): Outcome<seq<Node>> {
    if rest.Ok? then Ok(nodes + rest.value) else rest
  }

  method ReadTagNumber(bytes: seq<Byte>, at: nat) returns (tagNumber: int, offset: nat)
    requires at < |bytes|
    ensures (tagNumber, offset) == ReadTag(bytes, at)
  {
    offset := at + 1;
    tagNumber := bytes[at] % 32;
    if tagNumber == 31 {
      tagNumber := 0;
      while offset < |bytes|
        invariant at < offset <= |bytes|
        invariant ReadBase128(bytes, offset, tagNumber) == ReadBase128(bytes, at + 1, 0)
      {
        var b := bytes[offset];
        offset := offset + 1;
        tagNumber := Int32(tagNumber * 128) + b % 128;
        if b < 128 {
          break;
        }
      }
    }
  }

  method ReadLengthOctets(bytes: seq<Byte>, at: nat) returns (r: Outcome<(int, nat)>)
    requires at < |bytes|
    ensures r == ReadLength(bytes, at)
  {
    var lengthByte := bytes[at];
    if lengthByte < 128 {
      return Ok((lengthByte, at + 1));
    }
    var numOctets := lengthByte - 128;
    if numOctets == 0 {
      return Err(IndefiniteLength);
    }
    if numOctets > 4 {
      return Err(LengthTooLong);
    }
    if at + 1 + numOctets > |bytes| {
      return Err(TruncatedLength);
    }
    var length := 0;
    for i := 0 to numOctets
      invariant ReadOctets(bytes, at + 1 + i, numOctets - i, length) == ReadOctets(bytes, at + 1, numOctets, 0)
    {
      length := Int32(length * 256) + bytes[at + 1 + i];
    }
    r := Ok((length, at + 1 + numOctets));
  }

  /** Parses the element at `offset`, looping over its children; terminates on every input with lengths below 2^31. */
  method ParseAsn1Node(bytes: seq<Byte>, offset: nat) returns (r: Outcome<(Node, nat)>)
    ensures r == ParseNode(bytes, offset)
    decreases |bytes|, |bytes| - offset
  {
    if offset >= |bytes| {
      return Err(UnexpectedEnd);
    }
    var first := bytes[offset];
    var tagNumber, at := ReadTagNumber(bytes, offset);
    if at >= |bytes| {
      return Err(TruncatedHeader);
    }
    var len := ReadLengthOctets(bytes, at);
    if len.Err? {
      return Err(len.error);
    }
    var (length, contentAt) := len.value;
    if contentAt + length > |bytes| {
      return Err(TruncatedValue);
    }
    if length < 0 {
      return Err(WrappedLength);
    }
    var next := contentAt + length;
    var value := bytes[contentAt..next];
    var children: seq<Node> := [];
    if IsConstructed(first) {
      var kids := ParseAll(value);
      if kids.Err? {
        return Err(kids.error);
      }
      children := kids.value;
    }
    r := Ok((Node(first, first / 64, IsConstructed(first), tagNumber, contentAt - offset, length, value, bytes[offset..next], children), next));
  }

  /** The child loop. */
  method ParseAll(value: seq<Byte>) returns (r: Outcome<seq<Node>>)
    ensures r == ParseChildren(value, 0)
    decreases |value|, |value| + 1
  {
    var children: seq<Node> := [];
    var childOffset: nat := 0;
    PrependNothing(ParseChildren(value, 0));
    while childOffset < |value|
      invariant childOffset <= |value|
      invariant Prepend(children, ParseChildren(value, childOffset)) == ParseChildren(value, 0)
      decreases |value| - childOffset
    {
      var child := ParseAsn1Node(value, childOffset);
      if child.Err? {
        return Err(child.error);
      }
      PrependOne(children, child.value.0, ParseChildren(value, child.value.1));
      children := children + [child.value.0];
      childOffset := child.value.1;
    }
    assert children + [] == children;
    r := Ok(children);
  }

  lemma PrependNothing(rest: Outcome<seq<Node>>)
    ensures Prepend([], rest) == rest
  {
    assert rest.Ok? ==> [] + rest.value == rest.value;
  }

  lemma PrependOne(nodes: seq<Node>, node: Node, rest: Outcome<seq<Node>>)
    ensures Prepend(nodes + [node], rest) == Prepend(nodes, Prepend([node], rest))
  {
    assert rest.Ok? ==> nodes + [node] + rest.value == nodes + ([node] + rest.value);
  }

  // ---------------------------------------------------------------- INTEGER

  function Pow256(n: nat): (p: nat)
    ensures p >= 1
  {
    if n == 0 then 1 else 256 * Pow256(n - 1)
  }

  /** The octets read as an unsigned big-endian number. */
  function Unsigned(bytes: seq<Byte>): (u: nat)
    ensures u < Pow256(|bytes|)
  {
    if bytes == [] then 0 else Unsigned(bytes[..|bytes| - 1]) * 256 + bytes[|bytes| - 1]
  }

  /** The signed number the octets stand for: the top bit counts negatively. */
  function TwosComplement(bytes: seq<Byte>): int
    requires bytes != []
  {
    if bytes[0] >= 128 then Unsigned(bytes) - Pow256(|bytes|) else Unsigned(bytes)
  }

  lemma {:induction false} UnsignedSplit(bytes: seq<Byte>)
    requires bytes != []
    ensures Unsigned(bytes) == bytes[0] * Pow256(|bytes| - 1) + Unsigned(bytes[1..])
  {
    if |bytes| == 1 {
      assert bytes[..0] == [] && bytes[1..] == [];
    } else {
      var init, tail := bytes[..|bytes| - 1], bytes[1..];
      assert tail[..|tail| - 1] == init[1..];
      UnsignedSplit(init);
      TimesPow(bytes[0], |init| - 1);
    }
  }

  lemma {:induction false} TimesPow(b: nat, n: nat)
    ensures b * Pow256(n + 1) == 256 * (b * Pow256(n))
  {}

  lemma HalfPow(b: nat, p: nat)
    requires b < 256
    ensures b >= 128 ==> b * p >= 128 * p
    ensures b < 128 ==> b * p <= 127 * p
  {}

  /** The value agrees with the octets modulo 256^n and lies in the signed range of n octets. */
  lemma {:induction false} TwosComplementRange(bytes: seq<Byte>)
    requires bytes != []
    ensures 0 <= 2 * TwosComplement(bytes) + Pow256(|bytes|)
    ensures 2 * TwosComplement(bytes) < Pow256(|bytes|)
    ensures TwosComplement(bytes) == Unsigned(bytes) || TwosComplement(bytes) == Unsigned(bytes) - Pow256(|bytes|)
  {
    UnsignedSplit(bytes);
    HalfPow(bytes[0], Pow256(|bytes| - 1));
  }

  /** asn1IntegerToBigInt: the negative branch accumulates inverted octets. */
  method IntegerToBigInt(bytes: seq<Byte>) returns (r: Option<int>)
    ensures r.None? <==> bytes == []
    ensures r.Some? ==> r.value == TwosComplement(bytes)
  {
    if bytes == [] {
      return None;
    }
    var val := 0;
    if bytes[0] >= 128 {
      for i := 0 to |bytes|
        invariant val + Unsigned(bytes[..i]) + 1 == Pow256(i)
      {
        assert bytes[..i + 1][..i] == bytes[..i];
        val := val * 256 + (255 - bytes[i]);
      }
      assert bytes[..|bytes|] == bytes;
      return Some(-(val + 1));
    }
    for i := 0 to |bytes|
      invariant val == Unsigned(bytes[..i])
    {
      assert bytes[..i + 1][..i] == bytes[..i];
      val := val * 256 + bytes[i];
    }
    assert bytes[..|bytes|] == bytes;
    return Some(val);
  }

  // ---------------------------------------------------------------- OBJECT IDENTIFIER

  /** Subidentifiers after the first octet; a last one without its final octet is dropped. */
  function SubIds(bytes: seq<Byte>, current: nat): seq<nat> {
    if bytes == [] then []
    else
      var next := current * 128 + bytes[0] % 128;
      if bytes[0] < 128 then [next] + SubIds(bytes[1..], 0) else SubIds(bytes[1..], next)
  }

  function DecodeOid(bytes: seq<Byte>): Option<seq<nat>> {
    if bytes == [] then None
    else
      var first := if bytes[0] / 40 < 2 then bytes[0] / 40 else 2;
      Some([first, bytes[0] - first * 40] + SubIds(bytes[1..], 0))
  }

  /** asn1OidToString, up to joining the parts with dots. */
  method OidToParts(bytes: seq<Byte>) returns (r: Option<seq<nat>>)
    ensures r == DecodeOid(bytes)
  {
    if bytes == [] {
      return None;
    }
    var firstByte := bytes[0];
    var first := if firstByte / 40 < 2 then firstByte / 40 else 2;
    var parts: seq<nat> := [first, firstByte - first * 40];
    ghost var head := parts;
    var current: nat := 0;
    for i := 1 to |bytes|
      invariant parts + SubIds(bytes[i..], current) == head + SubIds(bytes[1..], 0)
    {
      assert bytes[i..][1..] == bytes[i + 1..] && bytes[i..][0] == bytes[i];
      ghost var next := current * 128 + bytes[i] % 128;
      assert bytes[i] < 128 ==> parts + SubIds(bytes[i..], current) == parts + [next] + SubIds(bytes[i + 1..], 0);
      current := current * 128 + bytes[i] % 128;
      if bytes[i] < 128 {
        parts := parts + [current];
        current := 0;
      }
    }
    assert bytes[|bytes|..] == [] && parts + SubIds([], current) == parts;
    r := Some(parts);
  }

  function EncodeSubIds(ids: seq<nat>): seq<Byte> {
    if ids == [] then [] else Base128(ids[0]) + EncodeSubIds(ids[1..])
  }

  /** The encoding of section 8.19: the first two arcs share one subidentifier. */
  function EncodeOid(arcs: seq<nat>): seq<Byte>
    requires |arcs| >= 2
  {
    Base128(40 * arcs[0] + arcs[1]) + EncodeSubIds(arcs[2..])
  }

  predicate ValidArcs(arcs: seq<nat>) {
    |arcs| >= 2 && arcs[0] <= 2 && (arcs[0] < 2 ==> arcs[1] < 40)
  }

  lemma {:induction false} SubIdsContinued(m: nat, tail: seq<Byte>)
    ensures SubIds(Continued(m) + tail, 0) == SubIds(tail, m)
    decreases m
  {
    if m == 0 {
      assert Continued(m) + tail == tail;
    } else {
      assert m / 128 * 128 + (128 + m % 128) % 128 == m;
      var more: seq<Byte> := [128 + m % 128] + tail;
      assert more[1..] == tail && more[0] == 128 + m % 128;
      assert Continued(m) + tail == Continued(m / 128) + more;
      SubIdsContinued(m / 128, more);
    }
  }

  lemma {:induction false} SubIdsBase128(n: nat, tail: seq<Byte>)
    ensures SubIds(Base128(n) + tail, 0) == [n] + SubIds(tail, 0)
  {
    var last: seq<Byte> := [n % 128] + tail;
    assert last[1..] == tail && last[0] == n % 128;
    assert Base128(n) + tail == Continued(n / 128) + last;
    SubIdsContinued(n / 128, last);
  }

  lemma {:induction false} SubIdsRoundTrip(ids: seq<nat>)
    ensures SubIds(EncodeSubIds(ids), 0) == ids
  {
    if ids != [] {
      SubIdsRoundTrip(ids[1..]);
      SubIdsBase128(ids[0], EncodeSubIds(ids[1..]));
    }
  }

  /** Any run of continued octets and a final one yields one subidentifier. */
  lemma {:induction false} OneSubId(c: seq<Byte>, d: Byte, tail: seq<Byte>, current: nat)
    requires d < 128 && forall i :: 0 <= i < |c| ==> c[i] >= 128
    ensures |SubIds(c + [d] + tail, current)| == 1 + |SubIds(tail, 0)|
  {
    var bytes := c + [d] + tail;
    if c == [] {
      assert bytes[1..] == tail;
    } else {
      assert bytes[1..] == c[1..] + [d] + tail;
      OneSubId(c[1..], d, tail, current * 128 + c[0] % 128);
    }
  }

  lemma {:induction false} ContinuedOctets(m: nat)
    ensures forall i :: 0 <= i < |Continued(m)| ==> Continued(m)[i] >= 128
    ensures m > 0 ==> |Continued(m)| > 0
  {
    if m > 0 {
      ContinuedOctets(m / 128);
    }
  }

  /** Decoding inverts the encoding exactly when the first subidentifier fits one octet. */
  lemma OidRoundTripIff(arcs: seq<nat>)
    requires ValidArcs(arcs)
    ensures DecodeOid(EncodeOid(arcs)) == Some(arcs) <==> 40 * arcs[0] + arcs[1] < 128
  {
    var n, rest := 40 * arcs[0] + arcs[1], EncodeSubIds(arcs[2..]);
    var enc := EncodeOid(arcs);
    SubIdsRoundTrip(arcs[2..]);
    assert arcs == [arcs[0], arcs[1]] + arcs[2..];
    if n < 128 {
      assert Base128(n) == [n] && enc[1..] == rest;
    } else {
      var c: seq<Byte>, d: Byte := Continued(n / 128), n % 128;
      ContinuedOctets(n / 128);
      assert enc[1..] == c[1..] + [d] + rest;
      OneSubId(c[1..], d, rest, 0);
    }
  }
}
