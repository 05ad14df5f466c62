/**
 * The DER parser exactly as src/lib/asn1.ts runs it, also where a length has wrapped to a negative
 * number: subarray counts a negative end from the back, an octet before the start is undefined, and
 * its length is not a number.  The child loop may then never end, so the functions count down `fuel`,
 * one unit per pass of the loop and per level; `Running` means that the fuel ran out.
 */
module DerAsWritten {
  import opened Common
  import opened Der

  /** A node with whatever the program puts in it; `None` stands for undefined or NaN. */
  datatype Written = Written(
    tag: Option<Byte>, tagClass: nat, constructed: bool, tagNumber: int, headerLength: int, length: Option<int>,
    value: seq<Byte>, raw: seq<Byte>, children: seq<Written>)

  datatype WrittenHeader = WrittenHeader(first: Option<Byte>, tagNumber: int, length: Option<int>, contentAt: int)

  datatype Answer<+T> = Done(outcome: Outcome<T>) | Running

  /** Bitwise operators read undefined as zero. */
  function Bits(b: Option<Byte>): Byte {
    if b.Some? then b.value else 0
  }

  function Clamp(n: nat, i: int): (c: nat)
    ensures c <= n
  {
    if i < 0 then (if n + i < 0 then 0 else n + i) else if i <= n then i else n
  }

  /** Uint8Array.subarray; an end that is not a number counts as zero. */
  function Subarray(bytes: seq<Byte>, from: int, to: Option<int>): seq<Byte> {
    var lo, hi := Clamp(|bytes|, from), Clamp(|bytes|, if to.Some? then to.value else 0);
    if lo <= hi then bytes[lo..hi] else []
  }

  /** At a negative offset there is no tag octet, and no length octet either unless it is octet 0. */
  function HeaderAt(bytes: seq<Byte>, offset: int): Outcome<WrittenHeader> {
    if offset >= 0 then
      match ReadHeader(bytes, offset)
      case Err(e) => Err(e)
      case Ok(h) => Ok(WrittenHeader(Some(bytes[offset]), h.tagNumber, Some(h.length), h.contentAt))
    else if offset + 1 >= |bytes| then Err(TruncatedHeader)
    else if offset + 1 < 0 then Ok(WrittenHeader(None, 0, None, offset + 2))
    else
      match ReadLength(bytes, 0)
      case Err(e) => Err(e)
      case Ok(len) => Ok(WrittenHeader(None, 0, Some(len.0), len.1))
  }

  function EndOf(h: WrittenHeader): Option<int> {
    if h.length.Some? then Some(h.contentAt + h.length.value) else None
  }

  function NodeOfHeader(bytes: seq<Byte>, offset: int, h: WrittenHeader, kids: seq<Written>): Written {
    var first := Bits(h.first);
    Written(h.first, first / 64, IsConstructed(first), h.tagNumber, h.contentAt - offset, h.length,
            Subarray(bytes, h.contentAt, EndOf(h)), Subarray(bytes, offset, EndOf(h)), kids)
  }

  function NodeAt(bytes: seq<Byte>, offset: int, fuel: nat): Answer<(Written, Option<int>)>
    decreases fuel, 0
  {
    match HeaderAt(bytes, offset)
    case Err(e) => Done(Err(e))
    case Ok(h) =>
      if h.length.Some? && h.contentAt + h.length.value > |bytes| then Done(Err(TruncatedValue))
      else if !IsConstructed(Bits(h.first)) then Done(Ok((NodeOfHeader(bytes, offset, h, []), EndOf(h))))
      else if fuel == 0 then Running
      else Finish(bytes, offset, h, ChildLoop(Subarray(bytes, h.contentAt, EndOf(h)), Some(0), [], fuel - 1))
  }

  /** What the element answers, given what its child loop answers. */
  function Finish(bytes: seq<Byte>, offset: int, h: WrittenHeader, kids: Answer<seq<Written>>): Answer<(Written, Option<int>)> {
    match kids
    case Running => Running
    case Done(Err(e)) => Done(Err(e))
    case Done(Ok(nodes)) => Done(Ok((NodeOfHeader(bytes, offset, h, nodes), EndOf(h))))
  }

  /** The child loop at `offset` with `kids` pushed already. */
  function ChildLoop(value: seq<Byte>, offset: Option<int>, kids: seq<Written>, fuel: nat): Answer<seq<Written>>
    decreases fuel, 1
  {
    if offset.None? || offset.value >= |value| then Done(Ok(kids))
    else if fuel == 0 then Running
    else
      match NodeAt(value, offset.value, fuel - 1)
      case Running => Running
      case Done(Err(e)) => Done(Err(e))
      case Done(Ok(child)) => ChildLoop(value, child.1, kids + [child.0], fuel - 1)
  }

  /** An answer does not depend on how much fuel was left over. */
  lemma {:induction false} MoreFuel(bytes: seq<Byte>, offset: int, fuel: nat)
    requires NodeAt(bytes, offset, fuel).Done?
    ensures NodeAt(bytes, offset, fuel + 1) == NodeAt(bytes, offset, fuel)
    decreases fuel, 0
  {
    if HeaderAt(bytes, offset).Ok? && fuel > 0 {
      var h := HeaderAt(bytes, offset).value;
      var value := Subarray(bytes, h.contentAt, EndOf(h));
      if ChildLoop(value, Some(0), [], fuel - 1).Done? {
        MoreLoopFuel(value, Some(0), [], fuel - 1);
      }
    }
  }

  lemma {:induction false} MoreLoopFuel(value: seq<Byte>, offset: Option<int>, kids: seq<Written>, fuel: nat)
    requires ChildLoop(value, offset, kids, fuel).Done?
    ensures ChildLoop(value, offset, kids, fuel + 1) == ChildLoop(value, offset, kids, fuel)
    decreases fuel, 1
  {
    if offset.Some? && offset.value < |value| {
      var step := NodeAt(value, offset.value, fuel - 1);
      MoreFuel(value, offset.value, fuel - 1);
      if step.outcome.Ok? {
        MorePassFuel(value, offset.value, kids, fuel, step.outcome.value.0, step.outcome.value.1);
      }
    }
  }

  lemma {:induction false} MorePassFuel(value: seq<Byte>, offset: int, kids: seq<Written>, fuel: nat, child: Written, next: Option<int>)
    requires offset < |value| && fuel > 0 && ChildLoop(value, Some(offset), kids, fuel).Done?
    requires NodeAt(value, offset, fuel - 1) == NodeAt(value, offset, fuel) == Done(Ok((child, next)))
    ensures ChildLoop(value, Some(offset), kids, fuel + 1) == ChildLoop(value, Some(offset), kids, fuel)
    decreases fuel, 0
  {
    Pass(value, offset, kids, fuel, child, next);
    Pass(value, offset, kids, fuel + 1, child, next);
    MoreLoopFuel(value, next, kids + [child], fuel - 1);
  }

  lemma {:induction false} Pass(value: seq<Byte>, offset: int, kids: seq<Written>, fuel: nat, child: Written, next: Option<int>)
    requires offset < |value| && fuel > 0 && NodeAt(value, offset, fuel - 1) == Done(Ok((child, next)))
    ensures ChildLoop(value, Some(offset), kids, fuel) == ChildLoop(value, next, kids + [child], fuel - 1)
  {}

  // ---------------------------------------------------------------- where no length wraps

  function Embed(node: Node): Written
    decreases node, 1
  {
    Written(Some(node.tag), node.tagClass, node.constructed, node.tagNumber, node.headerLength, Some(node.length),
            node.value, node.raw, EmbedAll(node.children))
  }

  function EmbedAll(nodes: seq<Node>): seq<Written>
    decreases nodes, 0
  {
    if nodes == [] then [] else [Embed(nodes[0])] + EmbedAll(nodes[1..])
  }

  function Expected(r: Outcome<(Node, nat)>): Answer<(Written, Option<int>)> {
    match r
    case Err(e) => Done(Err(e))
    case Ok(v) => Done(Ok((Embed(v.0), Some(v.1))))
  }

  function ExpectedKids(kids: seq<Written>, r: Outcome<seq<Node>>): Answer<seq<Written>> {
    match r
    case Err(e) => Done(Err(e))
    case Ok(nodes) => Done(Ok(kids + EmbedAll(nodes)))
  }

  function Header32(bytes: seq<Byte>, offset: nat, h: Header): WrittenHeader
    requires offset < |bytes|
  {
    WrittenHeader(Some(bytes[offset]), h.tagNumber, Some(h.length), h.contentAt)
  }

  lemma {:induction false} ElementAsWritten(bytes: seq<Byte>, offset: nat, h: Header, kids: seq<Node>)
    requires offset + 2 <= h.contentAt && 0 <= h.length && h.contentAt + h.length <= |bytes|
    ensures var next, wh := h.contentAt + h.length, Header32(bytes, offset, h);
      && Subarray(bytes, h.contentAt, EndOf(wh)) == bytes[h.contentAt..next]
      && NodeOfHeader(bytes, offset, wh, EmbedAll(kids))
           == Embed(Node(bytes[offset], bytes[offset] / 64, IsConstructed(bytes[offset]), h.tagNumber, h.contentAt - offset, h.length,
                         bytes[h.contentAt..next], bytes[offset..next], kids))
  {}

  /** The header at `offset`, and the value it announces. */
  ghost predicate Element(bytes: seq<Byte>, offset: nat, h: Header, value: seq<Byte>) {
    && ReadHeader(bytes, offset) == Ok(h) && 0 <= h.length && h.contentAt + h.length <= |bytes|
    && value == bytes[h.contentAt..h.contentAt + h.length]
  }

  lemma {:induction false} PrimitiveAsWritten(bytes: seq<Byte>, offset: nat, h: Header, value: seq<Byte>, fuel: nat)
    requires Element(bytes, offset, h, value) && !IsConstructed(bytes[offset])
    ensures NodeAt(bytes, offset, fuel) == Expected(ParseNode(bytes, offset))
  {
    ElementAsWritten(bytes, offset, h, []);
    assert EmbedAll([]) == [];
  }

  function Built(bytes: seq<Byte>, offset: nat, h: Header, value: seq<Byte>, kids: Outcome<seq<Node>>): Outcome<(Node, nat)>
    requires offset < |bytes| && offset <= h.contentAt && h.length == |value| && h.contentAt + |value| <= |bytes|
  {
    if kids.Err? then Err(kids.error)
    else
      Ok((Node(bytes[offset], bytes[offset] / 64, IsConstructed(bytes[offset]), h.tagNumber, h.contentAt - offset, h.length,
               value, bytes[offset..h.contentAt + h.length], kids.value), h.contentAt + h.length))
  }

  lemma {:induction false} ParsedConstructed(bytes: seq<Byte>, offset: nat, h: Header, value: seq<Byte>)
    requires Element(bytes, offset, h, value) && IsConstructed(bytes[offset])
    ensures ParseNode(bytes, offset) == Built(bytes, offset, h, value, ParseChildren(value, 0))
  {}

  lemma {:induction false} WrittenConstructed(bytes: seq<Byte>, offset: nat, h: Header, value: seq<Byte>, fuel: nat)
    requires Element(bytes, offset, h, value) && IsConstructed(bytes[offset]) && fuel > 0
    ensures NodeAt(bytes, offset, fuel) == Finish(bytes, offset, Header32(bytes, offset, h), ChildLoop(value, Some(0), [], fuel - 1))
  {
    ElementAsWritten(bytes, offset, h, []);
  }

  lemma {:induction false} FinishAsWritten(bytes: seq<Byte>, offset: nat, h: Header, value: seq<Byte>, kids: Outcome<seq<Node>>)
    requires Element(bytes, offset, h, value)
    ensures Finish(bytes, offset, Header32(bytes, offset, h), ExpectedKids([], kids)) == Expected(Built(bytes, offset, h, value, kids))
  {
    if kids.Ok? {
      NoneBefore(kids.value);
      ElementAsWritten(bytes, offset, h, kids.value);
    }
  }

  lemma {:induction false} BodyNotReached(bytes: seq<Byte>, offset: nat, fuel: nat)
    requires ReadHeader(bytes, offset).Ok? ==> var h := ReadHeader(bytes, offset).value; h.contentAt + h.length > |bytes|
    ensures NodeAt(bytes, offset, fuel) == Expected(ParseNode(bytes, offset))
  {}

  lemma {:induction false} LengthNotWrapped(bytes: seq<Byte>, offset: nat, h: Header)
    requires ReadHeader(bytes, offset) == Ok(h) && h.contentAt + h.length <= |bytes| && ParseNode(bytes, offset) != Err(WrappedLength)
    ensures 0 <= h.length
  {}

  /** Unless the parser of Der stops at a wrapped length, the program ends and answers the same. */
  lemma {:induction false} AsWrittenIsParse(bytes: seq<Byte>, offset: nat, fuel: nat)
    requires ParseNode(bytes, offset) != Err(WrappedLength) && fuel + offset >= |bytes|
    ensures NodeAt(bytes, offset, fuel) == Expected(ParseNode(bytes, offset))
    decreases |bytes|, |bytes| - offset, 0
  {
    var header := ReadHeader(bytes, offset);
    if header.Err? || header.value.contentAt + header.value.length > |bytes| {
      BodyNotReached(bytes, offset, fuel);
    } else {
      var h := header.value;
      LengthNotWrapped(bytes, offset, h);
      var value := bytes[h.contentAt..h.contentAt + h.length];
      if IsConstructed(bytes[offset]) {
        ParsedConstructed(bytes, offset, h, value);
        ConstructedAsWritten(bytes, offset, h, value, fuel);
      } else {
        PrimitiveAsWritten(bytes, offset, h, value, fuel);
      }
    }
  }

  lemma {:induction false} ConstructedAsWritten(bytes: seq<Byte>, offset: nat, h: Header, value: seq<Byte>, fuel: nat)
    requires Element(bytes, offset, h, value) && IsConstructed(bytes[offset]) && fuel + offset >= |bytes|
    requires ParseChildren(value, 0) != Err(WrappedLength)
    ensures NodeAt(bytes, offset, fuel) == Expected(Built(bytes, offset, h, value, ParseChildren(value, 0)))
    decreases |value|, |value| + 1, 2
  {
    LoopAsWrittenIsParse(value, 0, [], fuel - 1);
    ConstructedGiven(bytes, offset, h, value, ParseChildren(value, 0), fuel);
  }

  lemma {:induction false} ConstructedGiven(bytes: seq<Byte>, offset: nat, h: Header, value: seq<Byte>, kids: Outcome<seq<Node>>, fuel: nat)
    requires Element(bytes, offset, h, value) && IsConstructed(bytes[offset])
    requires fuel > 0 && ChildLoop(value, Some(0), [], fuel - 1) == ExpectedKids([], kids)
    ensures NodeAt(bytes, offset, fuel) == Expected(Built(bytes, offset, h, value, kids))
  {
    WrittenConstructed(bytes, offset, h, value, fuel);
    FinishAsWritten(bytes, offset, h, value, kids);
  }

  lemma {:induction false} NoneBefore(nodes: seq<Node>)
    ensures ExpectedKids([], Ok(nodes)) == Done(Ok(EmbedAll(nodes)))
  {
    assert [] + EmbedAll(nodes) == EmbedAll(nodes);
  }

  lemma {:induction false} LoopAsWrittenIsParse(value: seq<Byte>, offset: nat, kids: seq<Written>, fuel: nat)
    requires ParseChildren(value, offset) != Err(WrappedLength) && fuel + offset >= |value| + 1
    ensures ChildLoop(value, Some(offset), kids, fuel) == ExpectedKids(kids, ParseChildren(value, offset))
    decreases |value|, |value| - offset, 1
  {
    if offset >= |value| {
      NoMore(kids);
    } else {
      FirstChild(value, offset);
      AsWrittenIsParse(value, offset, fuel - 1);
      var first := ParseNode(value, offset);
      if first.Err? {
        FailedPass(value, offset, kids, fuel, first.error);
      } else {
        LaterChildren(value, offset, kids, fuel, first.value.0, first.value.1);
      }
    }
  }

  lemma {:induction false} LaterChildren(value: seq<Byte>, offset: nat, kids: seq<Written>, fuel: nat, child: Node, next: nat)
    requires offset < next <= |value| && fuel + offset >= |value| + 1
    requires NodeAt(value, offset, fuel - 1) == Done(Ok((Embed(child), Some(next))))
    requires ParseChildren(value, next) != Err(WrappedLength)
    ensures ChildLoop(value, Some(offset), kids, fuel) == ExpectedKids(kids, Consed(child, ParseChildren(value, next)))
    decreases |value|, |value| - offset, 0
  {
    Pass(value, offset, kids, fuel, Embed(child), Some(next));
    LoopAsWrittenIsParse(value, next, kids + [Embed(child)], fuel - 1);
    OneMore(kids, child, ParseChildren(value, next));
  }

  function Consed(node: Node, rest: Outcome<seq<Node>>): Outcome<seq<Node>> {
    if rest.Ok? then Ok([node] + rest.value) else rest
  }

  lemma NoMore(kids: seq<Written>)
    ensures ExpectedKids(kids, Ok([])) == Done(Ok(kids))
  {
    assert kids + [] == kids;
  }

  lemma {:induction false} FirstChild(value: seq<Byte>, offset: nat)
    requires offset < |value|
    ensures var first := ParseNode(value, offset);
      ParseChildren(value, offset) ==
        if first.Err? then Err(first.error) else Consed(first.value.0, ParseChildren(value, first.value.1))
  {}

  lemma {:induction false} FailedPass(value: seq<Byte>, offset: int, kids: seq<Written>, fuel: nat, e: DerError)
    requires offset < |value| && fuel > 0 && NodeAt(value, offset, fuel - 1) == Done(Err(e))
    ensures ChildLoop(value, Some(offset), kids, fuel) == Done(Err(e))
  {}

  lemma {:induction false} OneMore(kids: seq<Written>, node: Node, rest: Outcome<seq<Node>>)
    ensures ExpectedKids(kids + [Embed(node)], rest)
         == ExpectedKids(kids, Consed(node, rest))
  {
    if rest.Ok? {
      assert ([node] + rest.value)[1..] == rest.value;
      ConcatAssoc(kids, [Embed(node)], EmbedAll(rest.value));
    }
  }

  // ---------------------------------------------------------------- a child that stands still

  /** The length field of the element at `offset` takes back exactly the header. */
  ghost predicate StandsStill(bytes: seq<Byte>, offset: nat) {
    && ReadHeader(bytes, offset).Ok?
    && var h := ReadHeader(bytes, offset).value; h.contentAt + h.length == offset
  }

  /** The child such an element yields: no value and no raw bytes. */
  function StillChild(bytes: seq<Byte>, offset: nat): Written
    requires ReadHeader(bytes, offset).Ok?
  {
    var h := ReadHeader(bytes, offset).value;
    Written(Some(bytes[offset]), bytes[offset] / 64, IsConstructed(bytes[offset]), h.tagNumber, h.contentAt - offset, Some(h.length), [], [], [])
  }

  lemma {:induction false} StillNode(bytes: seq<Byte>, offset: nat, fuel: nat)
    requires StandsStill(bytes, offset)
    ensures NodeAt(bytes, offset, fuel) == Done(Ok((StillChild(bytes, offset), Some(offset)))) || NodeAt(bytes, offset, fuel).Running?
    ensures fuel > 0 ==> NodeAt(bytes, offset, fuel).Done?
  {
    var h := ReadHeader(bytes, offset).value;
    assert Subarray(bytes, h.contentAt, Some(offset)) == [] && Subarray(bytes, offset, Some(offset)) == [];
  }

  function Times(child: Written, n: nat): (cs: seq<Written>)
    ensures |cs| == n && forall i :: 0 <= i < n ==> cs[i] == child
  {
    seq(n, i => child)
  }

  /** After n passes of the loop the offset is where it was, with n children more. */
  lemma {:induction false} StuckLoop(value: seq<Byte>, offset: nat, kids: seq<Written>, n: nat, fuel: nat)
    requires StandsStill(value, offset) && fuel > 0
    ensures ChildLoop(value, Some(offset), kids, fuel + n) == ChildLoop(value, Some(offset), kids + Times(StillChild(value, offset), n), fuel)
    decreases n
  {
    var child := StillChild(value, offset);
    if n == 0 {
      assert kids + Times(child, 0) == kids;
    } else {
      StillNode(value, offset, fuel + n - 1);
      StuckLoop(value, offset, kids + [child], n - 1, fuel);
      assert kids + [child] + Times(child, n - 1) == kids + Times(child, n);
    }
  }

  /** So the loop never ends. */
  lemma {:induction false} LoopNeverEnds(value: seq<Byte>, offset: nat, kids: seq<Written>, fuel: nat)
    requires StandsStill(value, offset)
    ensures ChildLoop(value, Some(offset), kids, fuel).Running?
    decreases fuel
  {
    if fuel > 0 {
      StillNode(value, offset, fuel - 1);
      LoopNeverEnds(value, offset, kids + [StillChild(value, offset)], fuel - 1);
    }
  }

  /** Exactly when: a four-octet length that, read unsigned, is 2^32 less the size of the header. */
  lemma StandsStillIff(bytes: seq<Byte>, offset: nat)
    requires ReadHeader(bytes, offset).Ok?
    ensures var h, at := ReadHeader(bytes, offset).value, ReadTag(bytes, offset).1;
      StandsStill(bytes, offset) <==>
        bytes[at] == 0x84 && 0x8000_0000 <= FourOctets(bytes, at + 1) == 0x1_0000_0000 - (h.contentAt - offset)
  {
    var at := ReadTag(bytes, offset).1;
    LengthWrapsIff(bytes, at);
    if bytes[at] == 0x84 {
      FourOctetLength(bytes, at + 1);
    }
  }

  lemma StillOctets(value: seq<Byte>)
    requires |value| == 6 && value[0] == 0x04 && value[1] == 0x84 && FourOctets(value, 2) == 0xffff_fffa
    ensures StandsStill(value, 0)
  {
    StandsStillIff(value, 0);
  }

  lemma ShortSequence(bytes: seq<Byte>, n: nat)
    requires n < 128 && |bytes| == 2 + n && bytes[0] == 0x30 && bytes[1] == n
    ensures HeaderAt(bytes, 0) == Ok(WrittenHeader(Some(0x30), 0x10, Some(n), 2))
    ensures Subarray(bytes, 2, Some(2 + n)) == bytes[2..]
  {}

  /** Eight octets, 30 06 04 84 ff ff ff fa, on which the parser never returns: a SEQUENCE whose only child stands still. */
  lemma {:induction false} WrappedLengthNeverReturns(bytes: seq<Byte>, fuel: nat)
    requires |bytes| == 8 && bytes[0] == 0x30 && bytes[1] == 6 && bytes[2] == 0x04 && bytes[3] == 0x84
    requires bytes[4] == 0xff && bytes[5] == 0xff && bytes[6] == 0xff && bytes[7] == 0xfa
    ensures NodeAt(bytes, 0, fuel).Running?
  {
    var value := bytes[2..];
    StillOctets(value);
    ShortSequence(bytes, 6);
    if fuel > 0 {
      LoopNeverEnds(value, 0, [], fuel - 1);
    }
  }
}
