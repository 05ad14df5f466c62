/**
 * Conversion of P-256 signatures between raw r||s (section 3.4 of RFC 7518) and DER SEQUENCE
 * { r, s } (section 2.2.3 of RFC 3279), as written in src/lib/device-crypto.ts and again in
 * src/middleware/cloudflare-access.ts.  Reading past the end of a byte array yields `undefined`
 * in the program; `At` returns None there.
 */
module SignatureCodec {
  import opened Common
  import opened Der
  import opened DerDecode

  datatype Converted = Bytes(bytes: seq<Byte>) | Malformed

  function At(bytes: seq<Byte>, i: nat): Option<Byte> {
    if i < |bytes| then Some(bytes[i]) else None
  }

  /** Uint8Array.slice: clamped to the array. */
  function Slice(bytes: seq<Byte>, from: nat, to: nat): seq<Byte> {
    var hi := if to <= |bytes| then to else |bytes|;
    if from <= hi then bytes[from..hi] else []
  }

  function Zeros(n: nat): (z: seq<Byte>)
    ensures |z| == n && forall i :: 0 <= i < n ==> z[i] == 0
  {
    seq(n, i => 0)
  }

  // ---------------------------------------------------------------- raw to DER

  /** Drops leading zero octets, keeping at least one octet. */
  function Trim(bytes: seq<Byte>): (t: seq<Byte>)
    ensures |t| <= |bytes| && (|t| > 1 ==> t[0] != 0) && (bytes != [] ==> t != [])
  {
    if |bytes| > 1 && bytes[0] == 0 then Trim(bytes[1..]) else bytes
  }

  /** The content of a DER INTEGER for an unsigned number: a zero octet guards a set top bit. */
  function DerInt(bytes: seq<Byte>): (r: seq<Byte>)
    requires bytes != []
    ensures 1 <= |r| <= |bytes| + 1
  {
    var t := Trim(bytes);
    if t[0] >= 128 then [0] + t else t
  }

  /** SEQUENCE { INTEGER r, INTEGER s } for integer contents of at most 33 octets. */
  function Sequence(r: seq<Byte>, s: seq<Byte>): seq<Byte>
    requires |r| <= 33 && |s| <= 33
  {
    [0x30, 4 + |r| + |s|, 2, |r|] + r + [2, |s|] + s
  }

  function DerOf(sig: seq<Byte>): (der: seq<Byte>)
    requires |sig| == 64
  {
    Sequence(DerInt(sig[..32]), DerInt(sig[32..]))
  }

  method TrimZeros(bytes: seq<Byte>) returns (t: seq<Byte>)
    ensures t == Trim(bytes)
  {
    var start := 0;
    while start < |bytes| - 1 && bytes[start] == 0
      invariant 0 <= start <= |bytes|
      invariant Trim(bytes[start..]) == Trim(bytes)
    {
      assert bytes[start..][1..] == bytes[start + 1..];
      start := start + 1;
    }
    t := bytes[start..];
  }

  /** p1363ToDer fills one buffer, octet by octet and block by block. */
  method P1363ToDer(p1363: seq<Byte>) returns (r: Converted)
    ensures r == if |p1363| == 64 then Bytes(DerOf(p1363)) else Malformed
    ensures |p1363| == 64 ==> IsStrictDer(r.bytes, p1363)
  {
    if |p1363| != 64 {
      return Malformed;
    }
    var rr := TrimZeros(p1363[..32]);
    if rr[0] >= 128 {
      rr := [0] + rr;
    }
    var ss := TrimZeros(p1363[32..]);
    if ss[0] >= 128 {
      ss := [0] + ss;
    }
    var der := FillDer(rr, ss);
    r := Bytes(der);
    DerIsStrict(p1363);
  }

  /** The output buffer of p1363ToDer. */
  method FillDer(r: seq<Byte>, s: seq<Byte>) returns (out: seq<Byte>)
    requires |r| <= 33 && |s| <= 33
    ensures out == Sequence(r, s)
  {
    var totalLen := 2 + |r| + 2 + |s|;
    var der := new Byte[2 + totalLen](i => 0);
    SetBlock(der, [0x30, totalLen, 2, |r|], 0);
    SetBlock(der, r, 4);
    var sOffset := 4 + |r|;
    SetBlock(der, [2, |s|], sOffset);
    SetBlock(der, s, sOffset + 2);
    out := der[..];
    assert out == der[..sOffset + 2 + |s|];
  }

  /** Uint8Array.set */
  method SetBlock(buffer: array<Byte>, block: seq<Byte>, at: nat)
    requires at + |block| <= buffer.Length
    modifies buffer
    ensures buffer[..at + |block|] == old(buffer[..at]) + block
    ensures buffer[at + |block|..] == old(buffer[at + |block|..])
  {
    forall i | 0 <= i < |block| {
      buffer[at + i] := block[i];
    }
  }

  /** rawSignatureToDer concatenates; anything but 64 octets is passed through. */
  method RawSignatureToDer(raw: seq<Byte>) returns (der: seq<Byte>)
    ensures der == if |raw| == 64 then DerOf(raw) else raw
    ensures |raw| == 64 ==> IsStrictDer(der, raw)
  {
    if |raw| != 64 {
      return raw;
    }
    var r := DerIntegerOf(raw[..32]);
    var s := DerIntegerOf(raw[32..]);
    var body := r + s;
    der := [0x30, |body|] + body;
    PartsMakeSequence(DerInt(raw[..32]), DerInt(raw[32..]));
    DerIsStrict(raw);
  }

  lemma PartsMakeSequence(r: seq<Byte>, s: seq<Byte>)
    requires |r| <= 33 && |s| <= 33
    ensures var body := [2, |r|] + r + ([2, |s|] + s); [0x30, |body|] + body == Sequence(r, s)
  {
    var body := [2, |r|] + r + ([2, |s|] + s);
    assert [0x30, |body|] + body == [0x30, 4 + |r| + |s|] + [2, |r|] + r + [2, |s|] + s;
    assert [0x30, 4 + |r| + |s|] + [2, |r|] == [0x30, 4 + |r| + |s|, 2, |r|];
  }

  method DerIntegerOf(bytes: seq<Byte>) returns (out: seq<Byte>)
    requires 0 < |bytes| < 255
    ensures out == [2, |DerInt(bytes)|] + DerInt(bytes)
    ensures out[0] == 2 && |out| - 2 == out[1] && IsMinimalUnsigned(out[2..], bytes)
  {
    var trimmed := TrimZeros(bytes);
    if trimmed[0] >= 128 {
      trimmed := [0] + trimmed;
    }
    out := [2, |trimmed|] + trimmed;
    DerIntIsMinimal(bytes);
  }

  // ---------------------------------------------------------------- what the DER form means

  /** The content of a DER INTEGER (section 8.3 of ITU-T X.690) whose value is the unsigned number `bytes`. */
  ghost predicate IsMinimalUnsigned(content: seq<Byte>, bytes: seq<Byte>) {
    && content != [] && TwosComplement(content) == Unsigned(bytes)
    && (|content| == 1 || content[0] != 0 || content[1] >= 128)
  }

  /** One element that fills its input: a SEQUENCE, with one-octet length, of the INTEGERs r and s. */
  ghost predicate IsStrictDer(der: seq<Byte>, sig: seq<Byte>)
    requires |sig| == 64
  {
    && ParseNode(der, 0).Ok?
    && var (node, next) := ParseNode(der, 0).value;
      && next == |der| && node.tag == 0x30 && node.constructed && node.headerLength == 2
      && |node.children| == 2
      && IsPrimitiveInteger(node.children[0]) && IsMinimalUnsigned(node.children[0].value, sig[..32])
      && IsPrimitiveInteger(node.children[1]) && IsMinimalUnsigned(node.children[1].value, sig[32..])
  }

  ghost predicate IsPrimitiveInteger(node: Node) {
    node.tag == 2 && !node.constructed && node.headerLength == 2
  }

  lemma {:induction false} UnsignedOfTrim(bytes: seq<Byte>)
    requires bytes != []
    ensures Unsigned(Trim(bytes)) == Unsigned(bytes)
  {
    if |bytes| > 1 && bytes[0] == 0 {
      UnsignedOfTrim(bytes[1..]);
      UnsignedSplit(bytes);
    }
  }

  lemma {:induction false} DerIntIsMinimal(bytes: seq<Byte>)
    requires bytes != []
    ensures IsMinimalUnsigned(DerInt(bytes), bytes)
  {
    var t := Trim(bytes);
    UnsignedOfTrim(bytes);
    if t[0] >= 128 {
      UnsignedSplit([0] + t);
      assert ([0] + t)[1..] == t;
    }
  }

  /** The same octets from the reference encoder. */
  function SignatureTree(r: seq<Byte>, s: seq<Byte>): Tree {
    Cons(0, 16, [Prim(0, 2, r), Prim(0, 2, s)])
  }

  lemma {:induction false} SequenceEncodes(r: seq<Byte>, s: seq<Byte>)
    requires |r| <= 33 && |s| <= 33
    ensures Encode(SignatureTree(r, s)) == Sequence(r, s) && Encodable(SignatureTree(r, s))
  {
    var a, b := Prim(0, 2, r), Prim(0, 2, s);
    assert Encode(a) == [2, |r|] + r;
    assert Encode(b) == [2, |s|] + s;
    assert [a, b][1..] == [b] && [b][1..] == [];
    assert EncodeAll([b]) == Encode(b) + EncodeAll([]);
    assert EncodeAll([a, b]) == Encode(a) + Encode(b);
  }

  lemma {:induction false} SequenceParses(r: seq<Byte>, s: seq<Byte>)
    requires |r| <= 33 && |s| <= 33
    ensures ParseNode(Sequence(r, s), 0) == Ok((NodeOf(SignatureTree(r, s)), |Sequence(r, s)|))
    ensures NodeOf(SignatureTree(r, s)).children == [NodeOf(Prim(0, 2, r)), NodeOf(Prim(0, 2, s))]
  {
    SequenceEncodes(r, s);
    ParseEncode(SignatureTree(r, s), []);
    assert Sequence(r, s) + [] == Sequence(r, s);
    var a, b := Prim(0, 2, r), Prim(0, 2, s);
    assert [a, b][1..] == [b] && [b][1..] == [];
    assert NodesOf([b]) == [NodeOf(b)];
  }

  /** What both encoders write is strict DER for the two halves as unsigned numbers, whatever their top bits. */
  lemma {:induction false} DerIsStrict(sig: seq<Byte>)
    requires |sig| == 64
    ensures IsStrictDer(DerOf(sig), sig)
  {
    var r, s := DerInt(sig[..32]), DerInt(sig[32..]);
    SequenceParses(r, s);
    DerIntIsMinimal(sig[..32]);
    DerIntIsMinimal(sig[32..]);
    SignatureNode(r, s);
  }

  lemma {:induction false} SignatureNode(r: seq<Byte>, s: seq<Byte>)
    requires |r| <= 33 && |s| <= 33
    ensures var node := NodeOf(SignatureTree(r, s)); node.tag == 0x30 && node.constructed && node.headerLength == 2
    ensures IsPrimitiveInteger(NodeOf(Prim(0, 2, r))) && IsPrimitiveInteger(NodeOf(Prim(0, 2, s)))
  {
    SequenceEncodes(r, s);
  }

  // ---------------------------------------------------------------- DER to raw

  /** Removes a zero octet that only guards a set top bit. */
  function StripGuard(bytes: seq<Byte>): seq<Byte> {
    if |bytes| > 1 && bytes[0] == 0 && bytes[1] >= 128 then bytes[1..] else bytes
  }

  function LeftPad(bytes: seq<Byte>, size: nat): (p: seq<Byte>)
    requires |bytes| <= size
    ensures |p| == size
  {
    Zeros(size - |bytes|) + bytes
  }

  /** Where the first INTEGER is looked for: after a short or a long SEQUENCE length. */
  function FirstInteger(der: seq<Byte>): nat {
    if |der| > 1 && der[1] >= 128 then 2 + der[1] % 128 else 2
  }

  /** 32, or the P-384 or P-521 size if a longer integer fits one of those. */
  function TargetSize(r: nat, s: nat): nat {
    if r <= 32 && s <= 32 then 32
    else if r <= 48 && s <= 48 then 48
    else if r <= 66 && s <= 66 then 66
    else 32
  }

  function Assemble(r: seq<Byte>, s: seq<Byte>): Converted {
    var size := TargetSize(|r|, |s|);
    if |r| > size || |s| > size then Malformed else Bytes(LeftPad(r, size) + LeftPad(s, size))
  }

  /** derToP1363.  A missing length octet of s reads as an empty s; one of r makes the s tag unreadable. */
  function FromDer(der: seq<Byte>): Converted {
    if |der| == 64 then Bytes(der)
    else if At(der, 0) != Some(0x30) then Malformed
    else
      var integers := Integers(der, FirstInteger(der));
      if integers.None? then Malformed else Assemble(StripGuard(integers.value.0), StripGuard(integers.value.1))
  }

  /** The contents of the two INTEGERs that start at `at`, if both tags are there. */
  function Integers(der: seq<Byte>, at: nat): Option<(seq<Byte>, seq<Byte>)> {
    if At(der, at) != Some(2) || At(der, at + 1).None? then None
    else
      var next := at + 2 + der[at + 1];
      if At(der, next) != Some(2) then None
      else
        var sLen := if At(der, next + 1).Some? then der[next + 1] else 0;
        Some((Slice(der, at + 2, next), Slice(der, next + 2, next + 2 + sLen)))
  }

  method DerToP1363(der: seq<Byte>) returns (r: Converted)
    ensures r == FromDer(der)
  {
    if |der| == 64 {
      return Bytes(der);
    }
    if At(der, 0) != Some(0x30) {
      return Malformed;
    }
    var offset: nat := 2;
    if |der| > 1 && der[1] >= 128 {
      offset := 2 + der[1] % 128;
    }
    var integers := Integers(der, offset);
    if integers.None? {
      return Malformed;
    }
    r := AssembleRaw(integers.value.0, integers.value.1);
  }

  method AssembleRaw(rBytes: seq<Byte>, sBytes: seq<Byte>) returns (r: Converted)
    ensures r == Assemble(StripGuard(rBytes), StripGuard(sBytes))
  {
    var rTrimmed := StripGuardLoop(rBytes);
    var sTrimmed := StripGuardLoop(sBytes);
    var targetSize := 32;
    if |rTrimmed| > 32 || |sTrimmed| > 32 {
      if |rTrimmed| <= 48 && |sTrimmed| <= 48 {
        targetSize := 48;
      } else if |rTrimmed| <= 66 && |sTrimmed| <= 66 {
        targetSize := 66;
      }
    }
    if |rTrimmed| > targetSize || |sTrimmed| > targetSize {
      return Malformed;
    }
    var p1363 := FillRaw(rTrimmed, sTrimmed, targetSize);
    r := Bytes(p1363);
  }

  /** The output buffer of derToP1363: both numbers right-aligned in their halves. */
  method FillRaw(r: seq<Byte>, s: seq<Byte>, size: nat) returns (out: seq<Byte>)
    requires |r| <= size && |s| <= size
    ensures out == LeftPad(r, size) + LeftPad(s, size)
  {
    var buffer := new Byte[size * 2](i => 0);
    forall i | 0 <= i < |r| {
      buffer[size - |r| + i] := r[i];
    }
    forall i | 0 <= i < |s| {
      buffer[size * 2 - |s| + i] := s[i];
    }
    assert buffer[..size] == LeftPad(r, size);
    assert buffer[size..] == LeftPad(s, size);
    out := buffer[..];
    assert out == buffer[..size] + buffer[size..];
  }

  method StripGuardLoop(bytes: seq<Byte>) returns (t: seq<Byte>)
    ensures t == StripGuard(bytes)
  {
    t := bytes;
    while |t| > 1 && t[0] == 0 && t[1] >= 128
      invariant t == bytes || (t == StripGuard(bytes) && t != [] && t[0] >= 128)
      decreases |t|
    {
      t := t[1..];
    }
  }

  /** One INTEGER of derSignatureToRaw: 32 octets and the offset after it, or a throw. */
  function ReadInt(der: seq<Byte>, at: nat): Option<(seq<Byte>, nat)> {
    if At(der, at) != Some(2) then None
    else
      var len := if At(der, at + 1).Some? then der[at + 1] else 0;
      var next := if At(der, at + 1).Some? then at + 2 + len else |der|;
      var val := Trim(Slice(der, at + 2, at + 2 + len));
      if |val| > 32 then None else Some((LeftPad(val, 32), next))
  }

  /** derSignatureToRaw: on any failure the input comes back unchanged. */
  function ToRaw(der: seq<Byte>): seq<Byte> {
    if |der| == 64 || At(der, 0) != Some(0x30) then der
    else
      var r := ReadInt(der, 2);
      if r.None? then der
      else
        var s := ReadInt(der, r.value.1);
        if s.None? then der else r.value.0 + s.value.0
  }

  method DerSignatureToRaw(der: seq<Byte>) returns (raw: seq<Byte>)
    ensures raw == ToRaw(der)
  {
    if |der| == 64 {
      return der;
    }
    if At(der, 0) != Some(0x30) {
      return der;
    }
    var r := ReadIntAt(der, 2);
    if r.None? {
      return der;
    }
    var s := ReadIntAt(der, r.value.1);
    if s.None? {
      return der;
    }
    raw := r.value.0 + s.value.0;
  }

  method ReadIntAt(der: seq<Byte>, at: nat) returns (r: Option<(seq<Byte>, nat)>)
    ensures r == ReadInt(der, at)
  {
    if At(der, at) != Some(2) {
      return None;
    }
    var len, next := 0, |der|;
    if At(der, at + 1).Some? {
      len := der[at + 1];
      next := at + 2 + len;
    }
    var val := TrimZeros(Slice(der, at + 2, at + 2 + len));
    if |val| > 32 {
      return None;
    }
    var padded := RightAligned(val);
    r := Some((padded, next));
  }

  /** A zeroed buffer of 32 octets with `val` set at its end. */
  method RightAligned(val: seq<Byte>) returns (padded: seq<Byte>)
    requires |val| <= 32
    ensures padded == LeftPad(val, 32)
  {
    var out := new Byte[32](i => 0);
    forall i | 0 <= i < |val| {
      out[32 - |val| + i] := val[i];
    }
    padded := out[..];
  }

  // ---------------------------------------------------------------- round trips

  lemma ZerosCons(n: nat)
    ensures Zeros(n + 1) == [0] + Zeros(n)
  {}

  lemma {:induction false} PadTrim(bytes: seq<Byte>)
    ensures LeftPad(Trim(bytes), |bytes|) == bytes
  {
    if |bytes| > 1 && bytes[0] == 0 {
      var tail := bytes[1..];
      assert bytes == [0] + tail;
      PadTrim(tail);
      ZerosCons(|tail| - |Trim(tail)|);
    } else {
      assert Zeros(0) + bytes == bytes;
    }
  }

  lemma {:induction false} DerIntInverse(bytes: seq<Byte>)
    requires bytes != []
    ensures StripGuard(DerInt(bytes)) == Trim(bytes) && Trim(DerInt(bytes)) == Trim(bytes)
  {
    var t := Trim(bytes);
    if t[0] >= 128 {
      assert ([0] + t)[1..] == t;
    }
  }

  /** Where the parts of a SEQUENCE of two integers are found again. */
  lemma SequenceLayout(r: seq<Byte>, s: seq<Byte>)
    requires |r| <= 33 && |s| <= 33
    ensures var der := Sequence(r, s);
      && |der| == 6 + |r| + |s|
      && der[0] == 0x30 && der[1] < 128 && der[2] == 2 && der[3] == |r| && der[4 + |r|] == 2 && der[5 + |r|] == |s|
      && Slice(der, 4, 4 + |r|) == r && Slice(der, 6 + |r|, 6 + |r| + |s|) == s
  {}

  lemma Halves(sig: seq<Byte>)
    requires |sig| == 64
    ensures LeftPad(Trim(sig[..32]), 32) + LeftPad(Trim(sig[32..]), 32) == sig
  {
    PadTrim(sig[..32]);
    PadTrim(sig[32..]);
  }

  lemma {:induction false} LeadingZero(bytes: seq<Byte>)
    requires |Trim(bytes)| < |bytes|
    ensures bytes[0] == 0
  {}

  /** A DER form of 64 octets is never its own signature: r would start with 30 and repeat every four octets into s. */
  lemma DerIsNotRaw(sig: seq<Byte>)
    requires |sig| == 64 && |DerOf(sig)| == 64
    ensures DerOf(sig) != sig
  {
    var der, r, s := DerOf(sig), sig[..32], sig[32..];
    SequenceLayout(DerInt(r), DerInt(s));
    if sig[0] == 0x30 {
      assert Trim(r) == r && DerInt(r) == r;
      assert |Trim(s)| < 32;
      LeadingZero(s);
      assert sig[32] == s[0] == 0;
      assert forall i :: 0 <= i < 32 ==> der[4 + i] == Slice(der, 4, 36)[i] == r[i] == sig[i];
      assert der[4] == sig[0] && der[8] == sig[4] && der[12] == sig[8] && der[16] == sig[12];
      assert der[20] == sig[16] && der[24] == sig[20] && der[28] == sig[24] && der[32] == sig[28];
    }
  }

  lemma IntegersOfSequence(r: seq<Byte>, s: seq<Byte>)
    requires |r| <= 33 && |s| <= 33
    ensures Integers(Sequence(r, s), 2) == Some((r, s))
  {
    SequenceLayout(r, s);
    var der, next := Sequence(r, s), 4 + |r|;
    assert next == 2 + 2 + der[3];
    assert next + 2 + der[next + 1] == 6 + |r| + |s|;
  }

  lemma AssembleHalves(sig: seq<Byte>)
    requires |sig| == 64
    ensures Assemble(Trim(sig[..32]), Trim(sig[32..])) == Bytes(sig)
  {
    Halves(sig);
  }

  lemma P1363RoundTrip(sig: seq<Byte>)
    requires |sig| == 64 && |DerOf(sig)| != 64
    ensures FromDer(DerOf(sig)) == Bytes(sig)
  {
    var r, s := sig[..32], sig[32..];
    SequenceLayout(DerInt(r), DerInt(s));
    IntegersOfSequence(DerInt(r), DerInt(s));
    assert FirstInteger(DerOf(sig)) == 2;
    DerIntInverse(r);
    DerIntInverse(s);
    AssembleHalves(sig);
  }

  /** derToP1363 inverts p1363ToDer exactly when the DER form is not itself 64 octets long. */
  lemma P1363RoundTripIff(sig: seq<Byte>)
    requires |sig| == 64
    ensures FromDer(DerOf(sig)) == Bytes(sig) <==> |DerOf(sig)| != 64
    ensures |DerOf(sig)| == 64 ==> FromDer(DerOf(sig)) == Bytes(DerOf(sig))
  {
    if |DerOf(sig)| == 64 {
      DerIsNotRaw(sig);
    } else {
      P1363RoundTrip(sig);
    }
  }

  lemma {:induction false} ReadIntOf(der: seq<Byte>, at: nat, val: seq<Byte>)
    requires At(der, at) == Some(2) && At(der, at + 1) == Some(|val|) && Slice(der, at + 2, at + 2 + |val|) == val && |Trim(val)| <= 32
    ensures ReadInt(der, at) == Some((LeftPad(Trim(val), 32), at + 2 + |val|))
  {}

  lemma {:induction false} RawOfSequence(r: seq<Byte>, s: seq<Byte>)
    requires |r| <= 33 && |s| <= 33 && |Trim(r)| <= 32 && |Trim(s)| <= 32 && |Sequence(r, s)| != 64
    ensures ToRaw(Sequence(r, s)) == LeftPad(Trim(r), 32) + LeftPad(Trim(s), 32)
  {
    SequenceLayout(r, s);
    ReadIntOf(Sequence(r, s), 2, r);
    ReadIntOf(Sequence(r, s), 4 + |r|, s);
  }

  lemma RawRoundTrip(sig: seq<Byte>)
    requires |sig| == 64 && |DerOf(sig)| != 64
    ensures ToRaw(DerOf(sig)) == sig
  {
    DerIntInverse(sig[..32]);
    DerIntInverse(sig[32..]);
    RawOfSequence(DerInt(sig[..32]), DerInt(sig[32..]));
    Halves(sig);
  }

  /** The same for derSignatureToRaw and rawSignatureToDer. */
  lemma RawRoundTripIff(sig: seq<Byte>)
    requires |sig| == 64
    ensures ToRaw(DerOf(sig)) == sig <==> |DerOf(sig)| != 64
    ensures |DerOf(sig)| == 64 ==> ToRaw(DerOf(sig)) == DerOf(sig)
  {
    if |DerOf(sig)| == 64 {
      DerIsNotRaw(sig);
    } else {
      RawRoundTrip(sig);
    }
  }

  // ---------------------------------------------------------------- signatures whose DER form is 64 octets

  lemma {:induction false} TrimAfterZeros(n: nat, bytes: seq<Byte>)
    requires bytes != [] && bytes[0] != 0
    ensures Trim(Zeros(n) + bytes) == bytes
  {
    if n == 0 {
      assert Zeros(0) + bytes == bytes;
    } else {
      ZerosCons(n - 1);
      assert (Zeros(n) + bytes)[1..] == Zeros(n - 1) + bytes;
      TrimAfterZeros(n - 1, bytes);
    }
  }

  /** r of 32 significant octets and s of 26, none with a leading top bit. */
  lemma {:induction false} AmbiguousSignature(r: seq<Byte>, s: seq<Byte>)
    requires |r| == 32 && 0 < r[0] < 128 && |s| == 26 && 0 < s[0] < 128
    ensures var sig := r + Zeros(6) + s;
      && |sig| == 64 && |DerOf(sig)| == 64
      && FromDer(DerOf(sig)) == Bytes(DerOf(sig)) && ToRaw(DerOf(sig)) == DerOf(sig) && DerOf(sig) != sig
  {
    var sig := r + Zeros(6) + s;
    assert sig[..32] == r && sig[32..] == Zeros(6) + s;
    TrimAfterZeros(6, s);
    P1363RoundTripIff(sig);
    RawRoundTripIff(sig);
    DerIsNotRaw(sig);
  }

  /** There are such signatures. */
  lemma {:induction false} AmbiguousSignatureExists() returns (sig: seq<Byte>)
    ensures |sig| == 64 && |DerOf(sig)| == 64 && ToRaw(DerOf(sig)) != sig
  {
    var r, s := seq(32, i => 1), seq(26, i => 1);
    AmbiguousSignature(r, s);
    sig := r + Zeros(6) + s;
  }

  // ---------------------------------------------------------------- what the decoders read

  /** Octets after the SEQUENCE tag: a short length, or a long one of any number of octets. */
  predicate LengthOctets(len: seq<Byte>) {
    len != [] && if len[0] < 128 then |len| == 1 else |len| == len[0] - 127
  }

  /** A SEQUENCE whose first INTEGER is whole; `tail` is what follows the tag of the second. */
  predicate Reads(der: seq<Byte>, len: seq<Byte>, r: seq<Byte>, tail: seq<Byte>) {
    LengthOctets(len) && |r| < 256 && der == [0x30] + len + [2, |r|] + r + [2] + tail
  }

  /** The second INTEGER: as many octets as announced, if they are there. */
  function Announced(tail: seq<Byte>): seq<Byte> {
    if tail == [] then [] else if tail[0] < |tail| then tail[1..tail[0] + 1] else tail[1..]
  }

  /** Octets that count: all but one zero octet before a set top bit. */
  function Counted(bytes: seq<Byte>): nat {
    |bytes| - if |bytes| > 1 && bytes[0] == 0 && bytes[1] >= 128 then 1 else 0
  }

  /** Two numbers of `size` octets each. */
  ghost predicate Holds(raw: seq<Byte>, size: nat, r: seq<Byte>, s: seq<Byte>) {
    |raw| == 2 * size && Unsigned(raw[..size]) == Unsigned(r) && Unsigned(raw[size..]) == Unsigned(s)
  }

  lemma {:induction false} UnsignedOfPad(bytes: seq<Byte>, n: nat)
    ensures Unsigned(Zeros(n) + bytes) == Unsigned(bytes)
  {
    if n == 0 {
      assert Zeros(0) + bytes == bytes;
    } else {
      UnsignedOfPad(bytes, n - 1);
      UnsignedSplit(Zeros(n) + bytes);
      assert (Zeros(n) + bytes)[1..] == Zeros(n - 1) + bytes;
    }
  }

  lemma {:induction false} PairOfPads(r: seq<Byte>, s: seq<Byte>, size: nat)
    requires |r| <= size && |s| <= size
    ensures Holds(LeftPad(r, size) + LeftPad(s, size), size, r, s)
  {
    var raw := LeftPad(r, size) + LeftPad(s, size);
    assert raw[..size] == LeftPad(r, size) && raw[size..] == LeftPad(s, size);
    UnsignedOfPad(r, size - |r|);
    UnsignedOfPad(s, size - |s|);
  }

  lemma {:induction false} GuardCounts(bytes: seq<Byte>)
    ensures |StripGuard(bytes)| == Counted(bytes) && Unsigned(StripGuard(bytes)) == Unsigned(bytes)
  {
    if |bytes| > 1 && bytes[0] == 0 && bytes[1] >= 128 {
      UnsignedSplit(bytes);
    }
  }

  /** The octets of the second INTEGER, wherever its tag stands. */
  lemma SecondRead(der: seq<Byte>, at: nat, tail: seq<Byte>)
    requires at < |der| && der[at + 1..] == tail
    ensures Slice(der, at + 2, at + 2 + if At(der, at + 1).Some? then der[at + 1] else 0) == Announced(tail)
    ensures At(der, at + 1).None? <==> tail == []
  {
    if tail != [] {
      assert der[at + 1] == tail[0];
      assert der[at + 2..] == tail[1..];
      if tail[0] < |tail| {
        assert der[at + 2..at + 2 + tail[0]] == tail[1..tail[0] + 1];
      }
    }
  }

  /** Where the pieces of a SEQUENCE stand. */
  lemma PiecesAt(der: seq<Byte>, head: seq<Byte>, r: seq<Byte>, tail: seq<Byte>)
    requires |r| < 256 && der == head + [2, |r|] + r + [2] + tail
    ensures var at, next := |head|, |head| + 2 + |r|;
      && next < |der| && der[..at] == head && der[at] == 2 && der[at + 1] == |r| && der[next] == 2
      && der[at + 2..next] == r && der[next + 1..] == tail
  {}

  lemma IntegersOfPieces(der: seq<Byte>, at: nat, r: seq<Byte>, tail: seq<Byte>)
    requires |r| < 256 && at + 2 + |r| < |der| && der[at] == 2 && der[at + 1] == |r| && der[at + 2 + |r|] == 2
    requires der[at + 2..at + 2 + |r|] == r && der[at + 3 + |r|..] == tail
    ensures Integers(der, at) == Some((r, Announced(tail)))
  {
    SecondRead(der, at + 2 + |r|, tail);
  }

  /** The length octets say where the first INTEGER stands. */
  lemma LengthSkipped(der: seq<Byte>, len: seq<Byte>)
    requires LengthOctets(len) && |der| > |len| && der[..1 + |len|] == [0x30] + len
    ensures der[0] == 0x30 && FirstInteger(der) == 1 + |len|
  {
    assert der[..1 + |len|][0] == der[0] && der[..1 + |len|][1] == der[1];
  }

  lemma IntegersRead(der: seq<Byte>, len: seq<Byte>, r: seq<Byte>, tail: seq<Byte>)
    requires Reads(der, len, r, tail)
    ensures Integers(der, 1 + |len|) == Some((r, Announced(tail)))
    ensures der[0] == 0x30 && FirstInteger(der) == 1 + |len|
  {
    PiecesAt(der, [0x30] + len, r, tail);
    IntegersOfPieces(der, 1 + |len|, r, tail);
    LengthSkipped(der, len);
  }

  lemma FromDerAssembles(der: seq<Byte>, len: seq<Byte>, r: seq<Byte>, tail: seq<Byte>)
    requires |der| != 64 && Reads(der, len, r, tail)
    ensures FromDer(der) == Assemble(StripGuard(r), StripGuard(Announced(tail)))
  {
    IntegersRead(der, len, r, tail);
  }

  /** Both numbers, in halves that hold the longer one. */
  lemma {:induction false} AssembleHolds(r: seq<Byte>, s: seq<Byte>)
    ensures var out := Assemble(StripGuard(r), StripGuard(s));
      var most := if Counted(r) >= Counted(s) then Counted(r) else Counted(s);
      if most > 66 then out == Malformed
      else out.Bytes? && Holds(out.bytes, if most <= 32 then 32 else if most <= 48 then 48 else 66, r, s)
  {
    GuardCounts(r);
    GuardCounts(s);
    var a, b := StripGuard(r), StripGuard(s);
    if |a| <= 66 && |b| <= 66 {
      PairOfPads(a, b, TargetSize(|a|, |b|));
    }
  }

  /**
   * What derToP1363 makes of a SEQUENCE: both numbers, each in 32 octets, or in 48 or 66 if one of them
   * needs more; longer numbers are refused.
   */
  lemma {:induction false} FromDerReads(der: seq<Byte>, len: seq<Byte>, r: seq<Byte>, tail: seq<Byte>)
    requires |der| != 64 && Reads(der, len, r, tail)
    ensures var s := Announced(tail);
      var most := if Counted(r) >= Counted(s) then Counted(r) else Counted(s);
      if most > 66 then FromDer(der) == Malformed
      else FromDer(der).Bytes? && Holds(FromDer(der).bytes, if most <= 32 then 32 else if most <= 48 then 48 else 66, r, s)
  {
    FromDerAssembles(der, len, r, tail);
    AssembleHolds(r, Announced(tail));
  }

  lemma Reassembled(der: seq<Byte>, at: nat, next: nat)
    requires at + 2 <= next < |der| && der[at] == 2 && der[at + 1] == next - at - 2 && der[next] == 2
    ensures der == der[..at] + [2, |der[at + 2..next]|] + der[at + 2..next] + [2] + der[next + 1..]
  {
    assert der[at..at + 2] == [2, |der[at + 2..next]|] && der[next..next + 1] == [2];
    assert der == der[..at] + der[at..at + 2] + der[at + 2..next] + der[next..next + 1] + der[next + 1..];
  }

  lemma IntegersAt(der: seq<Byte>, at: nat)
    requires 0 < at && At(der, 0) == Some(0x30) && Integers(der, at).Some?
    ensures at + 1 < |der| && der == [0x30] + der[1..at] + [2, der[at + 1]] + Integers(der, at).value.0 + [2] + der[at + 3 + der[at + 1] as int..]
    ensures |Integers(der, at).value.0| == der[at + 1]
  {
    var rLen: nat := der[at + 1];
    Reassembled(der, at, at + 2 + rLen);
    assert der[..at] == [0x30] + der[1..at];
  }

  /** Anything else, unless it has 64 octets, is refused. */
  lemma {:induction false} FromDerOnlyReads(der: seq<Byte>) returns (len: seq<Byte>, r: seq<Byte>, tail: seq<Byte>)
    requires |der| != 64 && FromDer(der).Bytes?
    ensures Reads(der, len, r, tail)
  {
    var at := FirstInteger(der);
    IntegersAt(der, at);
    len, r, tail := der[1..at], Integers(der, at).value.0, der[at + 3 + der[at + 1] as int..];
  }

  /** Both INTEGERs as readInt sees them, given where their pieces stand. */
  lemma {:induction false} IntsOfPieces(der: seq<Byte>, r: seq<Byte>, tail: seq<Byte>)
    requires |r| < 256 && 4 + |r| < |der| && der[2] == 2 && der[3] == |r| && der[4 + |r|] == 2
    requires der[4..4 + |r|] == r && der[5 + |r|..] == tail
    ensures ReadInt(der, 2) == if |Trim(r)| > 32 then None else Some((LeftPad(Trim(r), 32), 4 + |r|))
    ensures ReadInt(der, 4 + |r|).None? <==> |Trim(Announced(tail))| > 32
    ensures ReadInt(der, 4 + |r|).Some? ==> ReadInt(der, 4 + |r|).value.0 == LeftPad(Trim(Announced(tail)), 32)
  {
    SecondRead(der, 4 + |r|, tail);
  }

  lemma {:induction false} FirstIntRead(der: seq<Byte>, x: Byte, r: seq<Byte>, tail: seq<Byte>)
    requires |r| < 256 && der == [0x30, x] + [2, |r|] + r + [2] + tail
    ensures der[0] == 0x30
    ensures ReadInt(der, 2) == if |Trim(r)| > 32 then None else Some((LeftPad(Trim(r), 32), 4 + |r|))
    ensures ReadInt(der, 4 + |r|).None? <==> |Trim(Announced(tail))| > 32
    ensures ReadInt(der, 4 + |r|).Some? ==> ReadInt(der, 4 + |r|).value.0 == LeftPad(Trim(Announced(tail)), 32)
  {
    var head: seq<Byte> := [0x30, x];
    PiecesAt(der, head, r, tail);
    assert der[..2][0] == der[0];
    IntsOfPieces(der, r, tail);
  }

  lemma {:induction false} ToRawOfTrimmed(der: seq<Byte>, x: Byte, r: seq<Byte>, tail: seq<Byte>)
    requires |der| != 64 && |r| < 256 && der == [0x30, x] + [2, |r|] + r + [2] + tail
    ensures ToRaw(der) == if |Trim(r)| <= 32 && |Trim(Announced(tail))| <= 32
                          then LeftPad(Trim(r), 32) + LeftPad(Trim(Announced(tail)), 32) else der
  {
    FirstIntRead(der, x, r, tail);
  }

  /**
   * What derSignatureToRaw makes of a SEQUENCE with a length of one octet: 64 octets that hold both
   * numbers if each is below 256^32, and the input itself if not.
   */
  lemma {:induction false} ToRawReads(der: seq<Byte>, x: Byte, r: seq<Byte>, tail: seq<Byte>)
    requires |der| != 64 && |r| < 256 && der == [0x30, x] + [2, |r|] + r + [2] + tail
    ensures var s := Announced(tail);
      if Unsigned(r) < Pow256(32) && Unsigned(s) < Pow256(32) then Holds(ToRaw(der), 32, r, s) else ToRaw(der) == der
  {
    var s := Announced(tail);
    ToRawOfTrimmed(der, x, r, tail);
    TrimFits(r, 32);
    TrimFits(s, 32);
    if |Trim(r)| <= 32 && |Trim(s)| <= 32 {
      TrimmedPads(r, s);
    }
  }

  lemma {:induction false} TrimmedPads(r: seq<Byte>, s: seq<Byte>)
    requires |Trim(r)| <= 32 && |Trim(s)| <= 32
    ensures Holds(LeftPad(Trim(r), 32) + LeftPad(Trim(s), 32), 32, r, s)
  {
    PairOfPads(Trim(r), Trim(s), 32);
    UnsignedOfTrimAll(r);
    UnsignedOfTrimAll(s);
  }

  lemma {:induction false} UnsignedOfTrimAll(bytes: seq<Byte>)
    ensures Unsigned(Trim(bytes)) == Unsigned(bytes)
  {
    if bytes != [] {
      UnsignedOfTrim(bytes);
    }
  }

  lemma {:induction false} Pow256Grows(i: nat, j: nat)
    requires i <= j
    ensures Pow256(i) <= Pow256(j)
    decreases j
  {
    if i < j {
      Pow256Grows(i, j - 1);
    }
  }

  /** A number fits n octets if and only if its significant octets do. */
  lemma {:induction false} TrimFits(bytes: seq<Byte>, n: nat)
    requires n > 0
    ensures |Trim(bytes)| <= n <==> Unsigned(bytes) < Pow256(n)
  {
    var t := Trim(bytes);
    UnsignedOfTrimAll(bytes);
    if |t| <= n {
      Pow256Grows(|t|, n);
    } else {
      UnsignedSplit(t);
      Pow256Grows(n, |t| - 1);
      AtLeastPow(t[0], Pow256(|t| - 1));
    }
  }

  lemma AtLeastPow(b: nat, p: nat)
    requires b >= 1
    ensures b * p >= p
  {}

  /** An input that is converted has both tags. */
  lemma {:induction false} SecondTag(der: seq<Byte>) returns (next: nat)
    requires ToRaw(der) != der
    ensures 4 <= next < |der| && der[0] == 0x30 && der[2] == 2 && der[3] == next - 4 && der[next] == 2
  {
    next := 4 + der[3] as int;
  }

  /** Anything else comes back unchanged. */
  lemma {:induction false} ToRawOnlyReads(der: seq<Byte>)
    requires ToRaw(der) != der
    ensures exists x, r, tail :: |r| < 256 && der == [0x30, x] + [2, |r|] + r + [2] + tail
  {
    var next := SecondTag(der);
    Reassembled(der, 2, next);
    assert der[..2] == [0x30, der[1]];
  }
}
