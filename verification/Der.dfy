/**
 * The DER parser (src/lib/asn1.ts) and a reference encoder for ITU-T X.690 sections 8.1.2, 8.1.3
 * and 10.1.  The parser reads tag and length with 32-bit shifts; the model keeps that wrap-around.
 */
module Der {
  import opened Common

  type Byte = b: nat | b < 256

  /** JavaScript's ToInt32. */
  function Int32(x: int): (r: int)
    ensures -0x8000_0000 <= r < 0x8000_0000
    ensures -0x8000_0000 <= x < 0x8000_0000 ==> r == x
  {
    (x + 0x8000_0000) % 0x1_0000_0000 - 0x8000_0000
  }

  datatype DerError =
    | UnexpectedEnd
    | TruncatedHeader
    | IndefiniteLength
    | LengthTooLong
    | TruncatedLength
    | TruncatedValue
    /** Not an error of the parser: it goes on with a negative length, outside this model. */
    | WrappedLength

  datatype Outcome<+T> = Ok(value: T) | Err(error: DerError)

  /** `children` is empty unless the element is constructed. */
  datatype Node = Node(
    tag: Byte, tagClass: nat, constructed: bool, tagNumber: int, headerLength: nat, length: nat,
    value: seq<Byte>, raw: seq<Byte>, children: seq<Node>)

  datatype Header = Header(tagNumber: int, length: int, contentAt: nat)

  // ---------------------------------------------------------------- reading a header

  /** The base-128 tag loop: the number read so far and the offset where the loop stops. */
  function ReadBase128(bytes: seq<Byte>, at: nat, acc: int): (r: (int, nat))
    ensures r.1 >= at && (at <= |bytes| ==> r.1 <= |bytes|)
    decreases |bytes| - at
  {
    if at >= |bytes| then (acc, at)
    else
      var acc' := Int32(acc * 128) + bytes[at] % 128;
      if bytes[at] < 128 then (acc', at + 1) else ReadBase128(bytes, at + 1, acc')
  }

  /** Tag number and the offset after it, for a first octet that is known to exist. */
  function ReadTag(bytes: seq<Byte>, at: nat): (r: (int, nat))
    requires at < |bytes|
    ensures at < r.1 <= |bytes|
  {
    if bytes[at] % 32 == 31 then ReadBase128(bytes, at + 1, 0) else (bytes[at] % 32, at + 1)
  }

  /** `n` length octets, most significant first, shifted in with 32-bit arithmetic. */
  function ReadOctets(bytes: seq<Byte>, at: nat, n: nat, acc: int): int
    requires at + n <= |bytes|
    decreases n
  {
    if n == 0 then acc else ReadOctets(bytes, at + 1, n - 1, Int32(acc * 256) + bytes[at])
  }

  function ReadLength(bytes: seq<Byte>, at: nat): Outcome<(int, nat)>
    requires at < |bytes|
  {
    if bytes[at] < 128 then Ok((bytes[at], at + 1))
    else
      var n := bytes[at] - 128;
      if n == 0 then Err(IndefiniteLength)
      else if n > 4 then Err(LengthTooLong)
      else if at + 1 + n > |bytes| then Err(TruncatedLength)
      else Ok((ReadOctets(bytes, at + 1, n, 0), at + 1 + n))
  }

  function ReadHeader(bytes: seq<Byte>, at: nat): (r: Outcome<Header>)
    ensures r.Ok? ==> at + 2 <= r.value.contentAt <= |bytes|
  {
    if at >= |bytes| then Err(UnexpectedEnd)
    else
      var tag := ReadTag(bytes, at);
      if tag.1 >= |bytes| then Err(TruncatedHeader)
      else match ReadLength(bytes, tag.1)
        case Err(e) => Err(e)
        case Ok(len) => Ok(Header(tag.0, len.0, len.1))
  }

  // ---------------------------------------------------------------- parsing

  /** Node at `offset` and the offset after it. */
  function ParseNode(bytes: seq<Byte>, offset: nat): (r: Outcome<(Node, nat)>)
    ensures r.Ok? ==> offset < r.value.1 <= |bytes|
    decreases |bytes|, |bytes| - offset, 1
  {
    match ReadHeader(bytes, offset)
    case Err(e) => Err(e)
    case Ok(h) => ParseBody(bytes, offset, h)
  }

  predicate IsConstructed(first: Byte) {
    (first / 32) % 2 == 1
  }

  /** The element whose header is already read. */
  function ParseBody(bytes: seq<Byte>, offset: nat, h: Header): (r: Outcome<(Node, nat)>)
    requires offset + 2 <= h.contentAt <= |bytes|
    ensures r.Ok? ==> offset < r.value.1 <= |bytes|
    decreases |bytes|, |bytes| - offset, 0
  {
    if h.contentAt + h.length > |bytes| then Err(TruncatedValue)
    else if h.length < 0 then Err(WrappedLength)
    else
      var next := h.contentAt + h.length;
      var value := bytes[h.contentAt..next];
      match if IsConstructed(bytes[offset]) then ParseChildren(value, 0) else Ok([])
      case Err(e) => Err(e)
      case Ok(kids) =>
        Ok((Node(bytes[offset], bytes[offset] / 64, IsConstructed(bytes[offset]), h.tagNumber, h.contentAt - offset, h.length,
                 value, bytes[offset..next], kids), next))
  }

  function ParseChildren(value: seq<Byte>, offset: nat): Outcome<seq<Node>>
    decreases |value|, |value| - offset, 2
  {
    if offset >= |value| then Ok([])
    else match ParseNode(value, offset)
      case Err(e) => Err(e)
      case Ok(child) =>
        match ParseChildren(value, child.1)
        case Err(e) => Err(e)
        case Ok(rest) => Ok([child.0] + rest)
  }

  // ---------------------------------------------------------------- structure

  function RawOf(nodes: seq<Node>): seq<Byte> {
    if nodes == [] then [] else nodes[0].raw + RawOf(nodes[1..])
  }

  /** At every depth: header plus value make up the raw bytes, and children's raw bytes make up the value. */
  ghost predicate WellFormed(node: Node) {
    && node.headerLength >= 2 && node.length == |node.value|
    && |node.raw| == node.headerLength + node.length && node.raw[node.headerLength..] == node.value
    && (if node.constructed then RawOf(node.children) == node.value else node.children == [])
    && forall i :: 0 <= i < |node.children| ==> WellFormed(node.children[i])
  }

  /** What the parser returns is the whole element that starts at the offset, broken down faithfully. */
  lemma {:induction false} ParseStructure(bytes: seq<Byte>, offset: nat)
    requires ParseNode(bytes, offset).Ok?
    ensures var (node, next) := ParseNode(bytes, offset).value; WellFormed(node) && node.raw == bytes[offset..next]
    decreases |bytes|, |bytes| - offset, 0
  {
    var h := ReadHeader(bytes, offset).value;
    var value := bytes[h.contentAt..h.contentAt + h.length];
    assert bytes[offset..h.contentAt + h.length][h.contentAt - offset..] == value;
    if IsConstructed(bytes[offset]) {
      ChildrenStructure(value, 0);
      assert value[0..] == value;
    }
  }

  lemma {:induction false} ChildrenStructure(value: seq<Byte>, offset: nat)
    requires offset <= |value| && ParseChildren(value, offset).Ok?
    ensures var kids := ParseChildren(value, offset).value; RawOf(kids) == value[offset..] && forall i :: 0 <= i < |kids| ==> WellFormed(kids[i])
    decreases |value|, |value| - offset, 1
  {
    if offset < |value| {
      var (node, next) := ParseNode(value, offset).value;
      ParseStructure(value, offset);
      ChildrenStructure(value, next);
      var rest := ParseChildren(value, next).value;
      assert ([node] + rest)[1..] == rest;
      assert value[offset..next] + value[next..] == value[offset..];
    }
  }

  // ---------------------------------------------------------------- locality

  lemma {:induction false} ReadBase128Shift(pre: seq<Byte>, bytes: seq<Byte>, post: seq<Byte>, at: nat, acc: int)
    requires at <= |bytes| && ReadBase128(bytes, at, acc).1 < |bytes|
    ensures var r := ReadBase128(bytes, at, acc); ReadBase128(pre + bytes + post, |pre| + at, acc) == (r.0, |pre| + r.1)
    decreases |bytes| - at
  {
    assert (pre + bytes + post)[|pre| + at] == bytes[at];
    if bytes[at] >= 128 {
      ReadBase128Shift(pre, bytes, post, at + 1, Int32(acc * 128) + bytes[at] % 128);
    }
  }

  lemma {:induction false} ReadOctetsShift(pre: seq<Byte>, bytes: seq<Byte>, post: seq<Byte>, at: nat, n: nat, acc: int)
    requires at + n <= |bytes|
    ensures ReadOctets(pre + bytes + post, |pre| + at, n, acc) == ReadOctets(bytes, at, n, acc)
    decreases n
  {
    if n > 0 {
      assert (pre + bytes + post)[|pre| + at] == bytes[at];
      ReadOctetsShift(pre, bytes, post, at + 1, n - 1, Int32(acc * 256) + bytes[at]);
    }
  }

  lemma HeaderShift(pre: seq<Byte>, bytes: seq<Byte>, post: seq<Byte>, at: nat)
    requires ReadHeader(bytes, at).Ok?
    ensures var h := ReadHeader(bytes, at).value;
      ReadHeader(pre + bytes + post, |pre| + at) == Ok(Header(h.tagNumber, h.length, |pre| + h.contentAt))
  {
    var all := pre + bytes + post;
    var tag := ReadTag(bytes, at);
    assert all[|pre| + at] == bytes[at] && all[|pre| + tag.1] == bytes[tag.1];
    if bytes[at] % 32 == 31 {
      ReadBase128Shift(pre, bytes, post, at + 1, 0);
    }
    if bytes[tag.1] >= 128 {
      ReadOctetsShift(pre, bytes, post, tag.1 + 1, bytes[tag.1] - 128, 0);
    }
  }

  lemma {:induction false} BodyShift(pre: seq<Byte>, bytes: seq<Byte>, post: seq<Byte>, offset: nat, h: Header)
    requires offset + 2 <= h.contentAt <= |bytes| && ParseBody(bytes, offset, h).Ok?
    ensures var (node, next) := ParseBody(bytes, offset, h).value;
      ParseBody(pre + bytes + post, |pre| + offset, h.(contentAt := |pre| + h.contentAt)) == Ok((node, |pre| + next))
  {
    var all, next := pre + bytes + post, h.contentAt + h.length;
    assert all[|pre| + h.contentAt..|pre| + next] == bytes[h.contentAt..next];
    assert all[|pre| + offset..|pre| + next] == bytes[offset..next];
    assert all[|pre| + offset] == bytes[offset];
  }

  /** An element that parses, parses the same wherever it stands and whatever follows it. */
  lemma {:induction false} ParseIsLocal(pre: seq<Byte>, bytes: seq<Byte>, post: seq<Byte>, offset: nat)
    requires ParseNode(bytes, offset).Ok?
    ensures var (node, next) := ParseNode(bytes, offset).value;
      ParseNode(pre + bytes + post, |pre| + offset) == Ok((node, |pre| + next))
  {
    HeaderShift(pre, bytes, post, offset);
    BodyShift(pre, bytes, post, offset, ReadHeader(bytes, offset).value);
  }

  // ---------------------------------------------------------------- wrap-around

  lemma {:induction false} OctetsSmall(bytes: seq<Byte>, at: nat, n: nat, acc: int, bound: int)
    requires at + n <= |bytes| && n <= 3 && 0 <= acc < bound
    requires bound == (if n == 0 then 0x8000_0000 else if n == 1 then 0x80_0000 else if n == 2 then 0x8000 else 0x80)
    ensures 0 <= ReadOctets(bytes, at, n, acc) < 0x8000_0000
    decreases n
  {
    if n > 0 {
      OctetsSmall(bytes, at + 1, n - 1, Int32(acc * 256) + bytes[at], bound * 256);
    }
  }

  /** The decoded length is negative exactly for four octets whose first has its top bit set. */
  lemma LengthWrapsIff(bytes: seq<Byte>, at: nat)
    requires at < |bytes| && ReadLength(bytes, at).Ok?
    ensures ReadLength(bytes, at).value.0 < 0 <==> bytes[at] == 0x84 && bytes[at + 1] >= 0x80
  {
    if bytes[at] >= 128 {
      var n := bytes[at] - 128;
      if n <= 3 {
        OctetsSmall(bytes, at + 1, n, 0, if n == 1 then 0x80_0000 else if n == 2 then 0x8000 else 0x80);
      } else {
        ReadFour(bytes, at + 1);
      }
    }
  }

  function ThreeOctets(a: int, b: int, c: int): int {
    (a * 256 + b) * 256 + c
  }

  lemma {:induction false} ReadFour(bytes: seq<Byte>, at: nat)
    requires at + 4 <= |bytes|
    ensures ReadOctets(bytes, at, 4, 0) == Int32(ThreeOctets(bytes[at], bytes[at + 1], bytes[at + 2]) * 256) + bytes[at + 3]
  {
    var a: int, b: int, c: int := bytes[at], bytes[at + 1], bytes[at + 2];
    assert ReadOctets(bytes, at, 4, 0) == ReadOctets(bytes, at + 1, 3, a);
    assert ReadOctets(bytes, at + 1, 3, a) == ReadOctets(bytes, at + 2, 2, a * 256 + b);
    assert ReadOctets(bytes, at + 2, 2, a * 256 + b) == ReadOctets(bytes, at + 3, 1, (a * 256 + b) * 256 + c);
    assert ReadOctets(bytes, at + 3, 1, (a * 256 + b) * 256 + c) == ReadOctets(bytes, at + 4, 0, Int32(((a * 256 + b) * 256 + c) * 256) + bytes[at + 3]);
  }

  /** Four octets read as an unsigned number. */
  function FourOctets(bytes: seq<Byte>, at: nat): nat
    requires at + 4 <= |bytes|
  {
    ThreeOctets(bytes[at], bytes[at + 1], bytes[at + 2]) * 256 + bytes[at + 3]
  }

  lemma {:induction false} FourOctetLength(bytes: seq<Byte>, at: nat)
    requires at + 4 <= |bytes|
    ensures var u := FourOctets(bytes, at);
      u < 0x1_0000_0000 && ReadOctets(bytes, at, 4, 0) == if u < 0x8000_0000 then u else u - 0x1_0000_0000
  {
    ReadFour(bytes, at);
    WrapFour(ThreeOctets(bytes[at], bytes[at + 1], bytes[at + 2]), bytes[at + 3]);
  }

  lemma WrapFour(x: nat, d: Byte)
    requires x < 0x100_0000
    ensures Int32(x * 256) + d == if x * 256 + d < 0x8000_0000 then x * 256 + d else x * 256 + d - 0x1_0000_0000
  {}

  /**
   * Exactly when an element does not move the parser forward: a four-octet length that, read
   * unsigned, lies between 2^31 and 2^32 less the size of the header.
   */
  lemma NoProgressIff(bytes: seq<Byte>, offset: nat)
    requires ReadHeader(bytes, offset).Ok?
    ensures var h, at := ReadHeader(bytes, offset).value, ReadTag(bytes, offset).1;
      h.contentAt + h.length <= offset <==>
        bytes[at] == 0x84 && 0x8000_0000 <= FourOctets(bytes, at + 1) <= 0x1_0000_0000 - (h.contentAt - offset)
  {
    var at := ReadTag(bytes, offset).1;
    LengthWrapsIff(bytes, at);
    if bytes[at] == 0x84 {
      FourOctetLength(bytes, at + 1);
    }
  }

  // ---------------------------------------------------------------- reference encoder

  datatype Tree = Prim(tagClass: nat, tag: nat, content: seq<Byte>) | Cons(tagClass: nat, tag: nat, kids: seq<Tree>)

  /** Base-128 digits of n > 0, most significant first, all with the continuation bit. */
  function Continued(n: nat): seq<Byte> {
    if n == 0 then [] else Continued(n / 128) + [128 + n % 128]
  }

  function Base128(n: nat): seq<Byte> {
    Continued(n / 128) + [n % 128]
  }

  function EncodeTag(tagClass: nat, constructed: bool, tag: nat): seq<Byte> {
    var lead := tagClass % 4 * 64 + if constructed then 32 else 0;
    if tag < 31 then [lead + tag] else [lead + 31] + Base128(tag)
  }

  /** Big-endian octets of n, no leading zero octet; empty for zero. */
  function BigEndian(n: nat): seq<Byte> {
    if n == 0 then [] else BigEndian(n / 256) + [n % 256]
  }

  function EncodeLength(n: nat): seq<Byte> {
    if n < 128 then [n] else [128 + |BigEndian(n)| % 128] + BigEndian(n)
  }

  function Content(t: Tree): seq<Byte>
    decreases t, 0
  {
    match t
    case Prim(_, _, content) => content
    case Cons(_, _, kids) => EncodeAll(kids)
  }

  function Encode(t: Tree): seq<Byte>
    decreases t, 1
  {
    EncodeTag(t.tagClass, t.Cons?, t.tag) + EncodeLength(|Content(t)|) + Content(t)
  }

  function EncodeAll(ts: seq<Tree>): seq<Byte>
    decreases ts, 0
  {
    if ts == [] then [] else Encode(ts[0]) + EncodeAll(ts[1..])
  }

  /** Tag numbers and lengths below 2^31 at every depth. */
  ghost predicate Encodable(t: Tree) {
    && t.tagClass < 4 && t.tag < 0x8000_0000 && |Content(t)| < 0x8000_0000
    && (t.Cons? ==> forall k :: k in t.kids ==> Encodable(k))
  }

  /** The node a tree should parse to. */
  function NodeOf(t: Tree): Node
    decreases t, 1
  {
    var header := EncodeTag(t.tagClass, t.Cons?, t.tag) + EncodeLength(|Content(t)|);
    Node(EncodeTag(t.tagClass, t.Cons?, t.tag)[0], t.tagClass, t.Cons?, t.tag, |header|, |Content(t)|, Content(t), Encode(t),
         if t.Cons? then NodesOf(t.kids) else [])
  }

  function NodesOf(ts: seq<Tree>): seq<Node>
    decreases ts, 0
  {
    if ts == [] then [] else [NodeOf(ts[0])] + NodesOf(ts[1..])
  }

  // ---------------------------------------------------------------- round trip

  /** Reading the continued digits of m leaves m in the accumulator. */
  lemma {:induction false} ReadContinued(bytes: seq<Byte>, at: nat, m: nat)
    requires m < 0x8000_0000 && at + |Continued(m)| <= |bytes| && bytes[at..at + |Continued(m)|] == Continued(m)
    ensures ReadBase128(bytes, at, 0) == ReadBase128(bytes, at + |Continued(m)|, m)
    decreases m
  {
    if m > 0 {
      var k := |Continued(m / 128)|;
      assert bytes[at..at + k + 1][..k] == bytes[at..at + k];
      ReadContinued(bytes, at, m / 128);
      assert bytes[at + k] == bytes[at..at + k + 1][k] == 128 + m % 128;
    }
  }

  lemma {:induction false} ReadBase128RoundTrip(bytes: seq<Byte>, at: nat, n: nat)
    requires n < 0x8000_0000 && at + |Base128(n)| <= |bytes| && bytes[at..at + |Base128(n)|] == Base128(n)
    ensures ReadBase128(bytes, at, 0) == (n, at + |Base128(n)|)
  {
    var k := |Continued(n / 128)|;
    assert bytes[at..at + k + 1][..k] == bytes[at..at + k];
    ReadContinued(bytes, at, n / 128);
    assert bytes[at + k] == bytes[at..at + k + 1][k] == n % 128;
  }

  lemma ReadTagRoundTrip(bytes: seq<Byte>, tagClass: nat, constructed: bool, tag: nat)
    requires tagClass < 4 && tag < 0x8000_0000 && EncodeTag(tagClass, constructed, tag) <= bytes
    ensures ReadTag(bytes, 0) == (tag, |EncodeTag(tagClass, constructed, tag)|)
    ensures bytes[0] / 64 == tagClass && (IsConstructed(bytes[0]) <==> constructed)
  {
    var enc := EncodeTag(tagClass, constructed, tag);
    assert bytes[0] == enc[0];
    if tag >= 31 {
      assert bytes[1..1 + |Base128(tag)|] == enc[1..];
      ReadBase128RoundTrip(bytes, 1, tag);
    }
  }

  lemma {:induction false} BigEndianShort(n: nat, k: nat, bound: nat)
    requires n < bound && k <= 4
    requires bound == (if k == 0 then 1 else if k == 1 then 0x100 else if k == 2 then 0x1_0000 else if k == 3 then 0x100_0000 else 0x1_0000_0000)
    ensures |BigEndian(n)| <= k
  {
    if n > 0 {
      BigEndianShort(n / 256, k - 1, bound / 256);
    }
  }

  lemma {:induction false} ReadOctetsSplit(bytes: seq<Byte>, at: nat, n: nat, acc: int)
    requires n > 0 && at + n <= |bytes|
    ensures ReadOctets(bytes, at, n, acc) == Int32(ReadOctets(bytes, at, n - 1, acc) * 256) + bytes[at + n - 1]
    decreases n
  {
    if n > 1 {
      ReadOctetsSplit(bytes, at + 1, n - 1, Int32(acc * 256) + bytes[at]);
    }
  }

  lemma {:induction false} ReadBigEndian(bytes: seq<Byte>, at: nat, n: nat)
    requires n < 0x8000_0000 && at + |BigEndian(n)| <= |bytes| && bytes[at..at + |BigEndian(n)|] == BigEndian(n)
    ensures ReadOctets(bytes, at, |BigEndian(n)|, 0) == n
  {
    if n > 0 {
      var k := |BigEndian(n / 256)|;
      assert bytes[at..at + k + 1][..k] == bytes[at..at + k];
      ReadBigEndian(bytes, at, n / 256);
      ReadOctetsSplit(bytes, at, k + 1, 0);
      assert bytes[at + k] == bytes[at..at + k + 1][k] == n % 256;
    }
  }

  lemma ReadLengthRoundTrip(bytes: seq<Byte>, at: nat, n: nat)
    requires n < 0x8000_0000 && at + |EncodeLength(n)| <= |bytes| && bytes[at..at + |EncodeLength(n)|] == EncodeLength(n)
    ensures ReadLength(bytes, at) == Ok((n, at + |EncodeLength(n)|))
  {
    assert bytes[at] == EncodeLength(n)[0];
    if n >= 128 {
      var k := |BigEndian(n)|;
      BigEndianShort(n, 4, 0x1_0000_0000);
      assert bytes[at + 1..at + 1 + k] == EncodeLength(n)[1..];
      ReadBigEndian(bytes, at + 1, n);
    }
  }

  function HeaderSize(t: Tree): nat {
    |EncodeTag(t.tagClass, t.Cons?, t.tag)| + |EncodeLength(|Content(t)|)|
  }

  lemma {:induction false} EncodeSlices(t: Tree, post: seq<Byte>)
    ensures var bytes, tag, len, n := Encode(t) + post, EncodeTag(t.tagClass, t.Cons?, t.tag), EncodeLength(|Content(t)|), HeaderSize(t);
      && |Encode(t)| == n + |Content(t)| && n >= 2
      && tag <= bytes && bytes[|tag|..|tag| + |len|] == len
      && bytes[n..n + |Content(t)|] == Content(t) && bytes[0..n + |Content(t)|] == Encode(t)
      && bytes[0] == tag[0]
  {
    Parts(EncodeTag(t.tagClass, t.Cons?, t.tag), EncodeLength(|Content(t)|), Content(t), post);
  }

  lemma Parts(tag: seq<Byte>, len: seq<Byte>, content: seq<Byte>, post: seq<Byte>)
    requires tag != [] && len != []
    ensures var bytes, n := tag + len + content + post, |tag| + |len|;
      && tag <= bytes && bytes[|tag|..n] == len
      && bytes[n..n + |content|] == content && bytes[0..n + |content|] == tag + len + content
      && bytes[0] == tag[0]
  {}

  lemma {:induction false} HeaderRoundTrip(t: Tree, post: seq<Byte>)
    requires t.tagClass < 4 && t.tag < 0x8000_0000 && |Content(t)| < 0x8000_0000
    ensures ReadHeader(Encode(t) + post, 0) == Ok(Header(t.tag, |Content(t)|, HeaderSize(t)))
    ensures (Encode(t) + post)[0] / 64 == t.tagClass && (IsConstructed((Encode(t) + post)[0]) <==> t.Cons?)
  {
    EncodeSlices(t, post);
    ReadTagRoundTrip(Encode(t) + post, t.tagClass, t.Cons?, t.tag);
    ReadLengthRoundTrip(Encode(t) + post, |EncodeTag(t.tagClass, t.Cons?, t.tag)|, |Content(t)|);
  }

  lemma {:induction false} BodyRoundTrip(t: Tree, bytes: seq<Byte>)
    requires |bytes| >= HeaderSize(t) + |Content(t)| && HeaderSize(t) >= 2
    requires bytes[HeaderSize(t)..HeaderSize(t) + |Content(t)|] == Content(t) && bytes[0..HeaderSize(t) + |Content(t)|] == Encode(t)
    requires bytes[0] == EncodeTag(t.tagClass, t.Cons?, t.tag)[0] && bytes[0] / 64 == t.tagClass && (IsConstructed(bytes[0]) <==> t.Cons?)
    requires t.Cons? ==> ParseChildren(Content(t), 0) == Ok(NodesOf(t.kids))
    ensures ParseBody(bytes, 0, Header(t.tag, |Content(t)|, HeaderSize(t))) == Ok((NodeOf(t), HeaderSize(t) + |Content(t)|))
  {
    BodyIs(bytes, Header(t.tag, |Content(t)|, HeaderSize(t)), Content(t), if t.Cons? then NodesOf(t.kids) else []);
  }

  lemma {:induction false} BodyIs(bytes: seq<Byte>, h: Header, value: seq<Byte>, kids: seq<Node>)
    requires 2 <= h.contentAt && h.length == |value| && h.contentAt + |value| <= |bytes|
    requires bytes[h.contentAt..h.contentAt + |value|] == value
    requires if IsConstructed(bytes[0]) then ParseChildren(value, 0) == Ok(kids) else kids == []
    ensures var next := h.contentAt + |value|;
      ParseBody(bytes, 0, h) == Ok((Node(bytes[0], bytes[0] / 64, IsConstructed(bytes[0]), h.tagNumber, h.contentAt, |value|,
                                         value, bytes[0..next], kids), next))
  {}

  /** Parsing the encoding of any tree, whatever follows it, gives back that tree. */
  lemma {:induction false} ParseEncode(t: Tree, post: seq<Byte>)
    requires Encodable(t)
    ensures ParseNode(Encode(t) + post, 0) == Ok((NodeOf(t), |Encode(t)|))
    decreases t, 2
  {
    if t.Cons? {
      ParseKids(t);
    }
    ElementRoundTrip(t, post);
  }

  lemma {:induction false} ElementRoundTrip(t: Tree, post: seq<Byte>)
    requires t.tagClass < 4 && t.tag < 0x8000_0000 && |Content(t)| < 0x8000_0000
    requires t.Cons? ==> ParseChildren(Content(t), 0) == Ok(NodesOf(t.kids))
    ensures ParseNode(Encode(t) + post, 0) == Ok((NodeOf(t), |Encode(t)|))
  {
    EncodeSlices(t, post);
    HeaderRoundTrip(t, post);
    BodyRoundTrip(t, Encode(t) + post);
  }

  lemma {:induction false} ParseKids(t: Tree)
    requires t.Cons? && forall k :: k in t.kids ==> Encodable(k)
    ensures ParseChildren(Content(t), 0) == Ok(NodesOf(t.kids))
    decreases t, 1
  {
    assert [] + EncodeAll(t.kids) == Content(t);
    ParseEncodeAll([], t.kids);
  }

  /** An element at the start of its own bytes, moved into a longer input. */
  lemma {:induction false} Moved(pre: seq<Byte>, bytes: seq<Byte>, post: seq<Byte>, node: Node)
    requires ParseNode(bytes + [], 0) == Ok((node, |bytes|))
    ensures ParseNode(pre + bytes + post, |pre|) == Ok((node, |pre| + |bytes|))
  {
    assert bytes + [] == bytes;
    ParseIsLocal(pre, bytes, post, 0);
  }

  /** The same anywhere in a longer input. */
  lemma {:induction false} ParseEncodeAt(pre: seq<Byte>, t: Tree, post: seq<Byte>)
    requires Encodable(t)
    ensures ParseNode(pre + Encode(t) + post, |pre|) == Ok((NodeOf(t), |pre| + |Encode(t)|))
    decreases t, 3
  {
    ParseEncode(t, []);
    Moved(pre, Encode(t), post, NodeOf(t));
  }

  lemma {:induction false} ChildrenCons(pre: seq<Byte>, head: seq<Byte>, tail: seq<Byte>, node: Node, rest: seq<Node>)
    requires head != [] && ParseNode(pre + head + tail, |pre|) == Ok((node, |pre| + |head|))
    requires ParseChildren(pre + head + tail, |pre + head|) == Ok(rest)
    ensures ParseChildren(pre + (head + tail), |pre|) == Ok([node] + rest)
  {
    ConcatAssoc(pre, head, tail);
  }

  lemma {:induction false} EncodeNotEmpty(t: Tree)
    ensures Encode(t) != []
  {}

  lemma {:induction false} ParseEncodeAll(pre: seq<Byte>, ts: seq<Tree>)
    requires forall k :: k in ts ==> Encodable(k)
    ensures ParseChildren(pre + EncodeAll(ts), |pre|) == Ok(NodesOf(ts))
    decreases ts, 0
  {
    if ts != [] {
      var head, tail := Encode(ts[0]), EncodeAll(ts[1..]);
      assert ts[0] in ts;
      EncodeNotEmpty(ts[0]);
      ParseEncodeAt(pre, ts[0], tail);
      ParseEncodeAll(pre + head, ts[1..]);
      ChildrenCons(pre, head, tail, NodeOf(ts[0]), NodesOf(ts[1..]));
    }
  }
}
