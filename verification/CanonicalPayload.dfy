/**
 * The canonical strings that devices sign (src/lib/device-crypto.ts:31-68).  Text is a sequence of
 * UTF-16 code units, as in JavaScript, so lone surrogates are included; NFC is any function `nfc`.
 */
module CanonicalPayload {
  import opened Common
  import opened Der

  type Unit = u: nat | u < 0x10000
  type Text = seq<Unit>

  const COLON: Unit := 0x3a
  const RECORD_SEPARATOR: Unit := 0x1e

  // ---------------------------------------------------------------- UTF-8

  predicate High(u: Unit) { 0xd800 <= u < 0xdc00 }

  predicate Low(u: Unit) { 0xdc00 <= u < 0xe000 }

  predicate StartsWithPair(t: Text) {
    |t| >= 2 && High(t[0]) && Low(t[1])
  }

  /** One code unit on its own; a lone surrogate becomes U+FFFD. */
  function EncodeUnit(u: Unit): seq<Byte> {
    if u < 0x80 then [u]
    else if u < 0x800 then [0xc0 + u / 64, 0x80 + u % 64]
    else if High(u) || Low(u) then [0xef, 0xbf, 0xbd]
    else [0xe0 + u / 4096, 0x80 + u / 64 % 64, 0x80 + u % 64]
  }

  function EncodePair(h: Unit, l: Unit): seq<Byte>
    requires High(h) && Low(l)
  {
    var cp := CodePoint(h, l);
    [0xf0 + cp / 0x40000, 0x80 + cp / 4096 % 64, 0x80 + cp / 64 % 64, 0x80 + cp % 64]
  }

  /** TextEncoder.encode */
  function Utf8(t: Text): seq<Byte> {
    if t == [] then []
    else if StartsWithPair(t) then EncodePair(t[0], t[1]) + Utf8(t[2..])
    else EncodeUnit(t[0]) + Utf8(t[1..])
  }

  function Units(ds: seq<nat>): (t: Text)
    requires forall i :: 0 <= i < |ds| ==> ds[i] < 10
    ensures |t| == |ds| && forall i :: 0 <= i < |ds| ==> t[i] == 0x30 + ds[i]
  {
    seq(|ds|, i requires 0 <= i < |ds| => 0x30 + ds[i])
  }

  // ---------------------------------------------------------------- payloads

  /** `<utf8 length>:<text>` for a text in normal form. */
  function EncodeField(t: Text): Text {
    Units(Digits(|Utf8(t)|)) + [COLON] + t
  }

  function Join(fields: seq<Text>): Text {
    if fields == [] then []
    else EncodeField(fields[0]) + if |fields| == 1 then [] else [RECORD_SEPARATOR] + Join(fields[1..])
  }

  datatype SmsParams = SmsParams(deviceId: Text, nonce: Text, timestamp: Text, sender: Text, body: Text)

  datatype RotationParams = RotationParams(deviceId: Text, nonce: Text, timestamp: Text, newPublicKey: Text)

  /** 'rotate-key' */
  const ROTATE_KEY_MARKER: Text := [0x72, 0x6f, 0x74, 0x61, 0x74, 0x65, 0x2d, 0x6b, 0x65, 0x79]

  function SmsFields(p: SmsParams, nfc: Text -> Text): seq<Text> {
    [nfc(p.deviceId), nfc(p.nonce), nfc(p.timestamp), nfc(p.sender), nfc(p.body)]
  }

  function RotationFields(p: RotationParams, nfc: Text -> Text): seq<Text> {
    [nfc(p.deviceId), nfc(p.nonce), nfc(p.timestamp), nfc(ROTATE_KEY_MARKER), nfc(p.newPublicKey)]
  }

  function BuildCanonicalSmsPayload(p: SmsParams, nfc: Text -> Text): Text {
    Join(SmsFields(p, nfc))
  }

  function BuildCanonicalKeyRotationPayload(p: RotationParams, nfc: Text -> Text): Text {
    Join(RotationFields(p, nfc))
  }

  // ---------------------------------------------------------------- unique decoding of strings

  /** More text always means more octets, even when a surrogate pair forms across the seam. */
  lemma {:induction false} LongerHasMoreOctets(a: Text, c: Text)
    requires c != []
    ensures |Utf8(a + c)| > |Utf8(a)|
  {
    if a == [] {
      assert a + c == c;
    } else if StartsWithPair(a) {
      LongerHasMoreOctets(a[2..], c);
      assert (a + c)[2..] == a[2..] + c;
    } else if |a| == 1 && StartsWithPair(a + c) {
      assert a[1..] == [];
    } else {
      LongerHasMoreOctets(a[1..], c);
      assert (a + c)[1..] == a[1..] + c;
    }
  }

  lemma {:induction false} SameLengthPrefix(a: Text, x: Text, b: Text, y: Text)
    requires a + x == b + y && |Utf8(a)| == |Utf8(b)|
    ensures a == b && x == y
  {
    if |a| <= |b| {
      assert b == a + b[|a|..] by {
        assert a == (a + x)[..|a|] && b == (b + y)[..|b|];
      }
      if |a| < |b| {
        LongerHasMoreOctets(a, b[|a|..]);
      }
    } else {
      assert a == b + a[|b|..] by {
        assert a == (a + x)[..|a|] && b == (b + y)[..|b|];
      }
      LongerHasMoreOctets(b, a[|b|..]);
    }
    assert x == (a + x)[|a|..] && y == (b + y)[|b|..];
  }

  lemma UnitsInjective(a: seq<nat>, b: seq<nat>)
    requires (forall i :: 0 <= i < |a| ==> a[i] < 10) && (forall i :: 0 <= i < |b| ==> b[i] < 10)
    requires Units(a) == Units(b)
    ensures a == b
  {
    forall i | 0 <= i < |a|
      ensures a[i] == b[i]
    {
      assert Units(a)[i] == 0x30 + a[i] && Units(b)[i] == 0x30 + b[i];
    }
  }

  /** A field is cut off unambiguously, whatever follows and whatever it contains. */
  lemma FieldDecodes(a: Text, x: Text, b: Text, y: Text)
    requires EncodeField(a) + x == EncodeField(b) + y
    ensures a == b && x == y
  {
    var da, db := Digits(|Utf8(a)|), Digits(|Utf8(b)|);
    assert EncodeField(a) + x == Units(da) + [COLON] + (a + x);
    assert EncodeField(b) + y == Units(db) + [COLON] + (b + y);
    SplitAtFirst(Units(da), a + x, Units(db), b + y, COLON);
    UnitsInjective(da, db);
    NumberOfDigits(|Utf8(a)|);
    NumberOfDigits(|Utf8(b)|);
    SameLengthPrefix(a, x, b, y);
  }

  /** What follows the first field. */
  function AfterFirst(fields: seq<Text>): Text
    requires fields != []
  {
    if |fields| == 1 then [] else [RECORD_SEPARATOR] + Join(fields[1..])
  }

  lemma {:induction false} JoinFirst(fields: seq<Text>)
    requires fields != []
    ensures Join(fields) == EncodeField(fields[0]) + AfterFirst(fields)
  {}

  lemma {:induction false} JoinInjective(a: seq<Text>, b: seq<Text>)
    requires |a| == |b| && Join(a) == Join(b)
    ensures a == b
  {
    if a != [] {
      assert a == [a[0]] + a[1..] && b == [b[0]] + b[1..];
      JoinFirst(a);
      JoinFirst(b);
      FieldDecodes(a[0], AfterFirst(a), b[0], AfterFirst(b));
      if |a| > 1 {
        assert AfterFirst(a)[1..] == Join(a[1..]) && AfterFirst(b)[1..] == Join(b[1..]);
        JoinInjective(a[1..], b[1..]);
      }
    }
  }

  /** Two SMS payloads are equal exactly when their five normalised fields are. */
  lemma SmsPayloadUnique(p: SmsParams, q: SmsParams, nfc: Text -> Text)
    ensures BuildCanonicalSmsPayload(p, nfc) == BuildCanonicalSmsPayload(q, nfc) <==> SmsFields(p, nfc) == SmsFields(q, nfc)
  {
    if BuildCanonicalSmsPayload(p, nfc) == BuildCanonicalSmsPayload(q, nfc) {
      JoinInjective(SmsFields(p, nfc), SmsFields(q, nfc));
    }
  }

  /** An SMS payload is a rotation payload exactly when its sender is the marker and its body the new key. */
  lemma SmsIsRotationIff(p: SmsParams, q: RotationParams, nfc: Text -> Text)
    ensures BuildCanonicalSmsPayload(p, nfc) == BuildCanonicalKeyRotationPayload(q, nfc) <==>
      && nfc(p.deviceId) == nfc(q.deviceId) && nfc(p.nonce) == nfc(q.nonce) && nfc(p.timestamp) == nfc(q.timestamp)
      && nfc(p.sender) == nfc(ROTATE_KEY_MARKER) && nfc(p.body) == nfc(q.newPublicKey)
  {
    var a, b := SmsFields(p, nfc), RotationFields(q, nfc);
    if BuildCanonicalSmsPayload(p, nfc) == BuildCanonicalKeyRotationPayload(q, nfc) {
      JoinInjective(a, b);
      assert a[0] == b[0] && a[1] == b[1] && a[2] == b[2] && a[3] == b[3] && a[4] == b[4];
    }
  }

  // ---------------------------------------------------------------- what is signed: the octets

  /** The octets of the first character and how many code units it takes. */
  function Head(t: Text): (h: (seq<Byte>, nat))
    requires t != []
    ensures 0 < h.1 <= |t|
  {
    if StartsWithPair(t) then (EncodePair(t[0], t[1]), 2) else (EncodeUnit(t[0]), 1)
  }

  lemma {:induction false} Utf8ByHead(t: Text)
    requires t != []
    ensures Utf8(t) == Head(t).0 + Utf8(t[Head(t).1..])
  {}

  /** No surrogate pair forms across the seam of two texts. */
  predicate CleanSeam(a: Text, c: Text) {
    a == [] || c == [] || !High(a[|a| - 1]) || !Low(c[0])
  }

  lemma HeadSeam(a: Text, c: Text)
    requires a != [] && CleanSeam(a, c)
    ensures Head(a + c) == Head(a) && (a + c)[Head(a).1..] == a[Head(a).1..] + c && CleanSeam(a[Head(a).1..], c)
  {}

  lemma {:induction false} Utf8Seam(a: Text, c: Text)
    requires CleanSeam(a, c)
    ensures Utf8(a + c) == Utf8(a) + Utf8(c)
  {
    if a == [] {
      assert a + c == c;
    } else {
      var tail := a[Head(a).1..];
      HeadSeam(a, c);
      Utf8Seam(tail, c);
      Utf8ByHead(a + c);
      Utf8ByHead(a);
      ConcatAssoc(Head(a).0, Utf8(tail), Utf8(c));
    }
  }

  function Ascii(t: Text): (b: seq<Byte>)
    requires forall i :: 0 <= i < |t| ==> t[i] < 128
    ensures |b| == |t| && forall i :: 0 <= i < |t| ==> b[i] == t[i]
  {
    seq(|t|, i requires 0 <= i < |t| => t[i])
  }

  lemma {:induction false} Utf8OfAscii(t: Text)
    requires forall i :: 0 <= i < |t| ==> t[i] < 128
    ensures Utf8(t) == Ascii(t)
  {
    if t != [] {
      Utf8OfAscii(t[1..]);
    }
  }

  /** The octets of a field: its octet count in decimal, a colon, its octets. */
  function FieldOctets(bytes: seq<Byte>): seq<Byte> {
    Ascii(Units(Digits(|bytes|))) + [0x3a] + bytes
  }

  function JoinOctets(fields: seq<seq<Byte>>): seq<Byte> {
    if fields == [] then []
    else FieldOctets(fields[0]) + if |fields| == 1 then [] else [0x1e] + JoinOctets(fields[1..])
  }

  function Utf8All(fields: seq<Text>): (bs: seq<seq<Byte>>)
    ensures |bs| == |fields| && forall i :: 0 <= i < |fields| ==> bs[i] == Utf8(fields[i])
  {
    seq(|fields|, i requires 0 <= i < |fields| => Utf8(fields[i]))
  }

  lemma {:induction false} Utf8OfField(t: Text, rest: Text)
    requires rest != [] ==> rest[0] == RECORD_SEPARATOR
    ensures Utf8(EncodeField(t) + rest) == FieldOctets(Utf8(t)) + Utf8(rest)
  {
    var prefix := Units(Digits(|Utf8(t)|)) + [COLON];
    assert Ascii(prefix) == Ascii(Units(Digits(|Utf8(t)|))) + [0x3a];
    Utf8Seam(EncodeField(t), rest);
    Utf8Seam(prefix, t);
    Utf8OfAscii(prefix);
  }

  lemma {:induction false} Utf8OfJoin(fields: seq<Text>)
    ensures Utf8(Join(fields)) == JoinOctets(Utf8All(fields))
  {
    if fields != [] {
      JoinFirst(fields);
      Utf8OfField(fields[0], AfterFirst(fields));
      if |fields| > 1 {
        assert Utf8All(fields)[1..] == Utf8All(fields[1..]);
        Utf8OfJoin(fields[1..]);
        Utf8Seam([RECORD_SEPARATOR], Join(fields[1..]));
        Utf8OfAscii([RECORD_SEPARATOR]);
      }
    }
  }

  lemma FieldOctetsDecode(a: seq<Byte>, x: seq<Byte>, b: seq<Byte>, y: seq<Byte>)
    requires FieldOctets(a) + x == FieldOctets(b) + y
    ensures a == b && x == y
  {
    var da, db := Digits(|a|), Digits(|b|);
    assert FieldOctets(a) + x == Ascii(Units(da)) + [0x3a] + (a + x);
    assert FieldOctets(b) + y == Ascii(Units(db)) + [0x3a] + (b + y);
    SplitAtFirst(Ascii(Units(da)), a + x, Ascii(Units(db)), b + y, 0x3a);
    assert Units(da) == Units(db) by {
      assert forall i :: 0 <= i < |da| ==> Units(da)[i] == Ascii(Units(da))[i];
      assert forall i :: 0 <= i < |db| ==> Units(db)[i] == Ascii(Units(db))[i];
    }
    UnitsInjective(da, db);
    NumberOfDigits(|a|);
    NumberOfDigits(|b|);
    assert a == (a + x)[..|a|] && b == (b + y)[..|b|] && x == (a + x)[|a|..] && y == (b + y)[|b|..];
  }

  function OctetsAfterFirst(fields: seq<seq<Byte>>): seq<Byte>
    requires fields != []
  {
    if |fields| == 1 then [] else [0x1e] + JoinOctets(fields[1..])
  }

  lemma {:induction false} JoinOctetsFirst(fields: seq<seq<Byte>>)
    requires fields != []
    ensures JoinOctets(fields) == FieldOctets(fields[0]) + OctetsAfterFirst(fields)
  {}

  lemma {:induction false} JoinOctetsInjective(a: seq<seq<Byte>>, b: seq<seq<Byte>>)
    requires |a| == |b| && JoinOctets(a) == JoinOctets(b)
    ensures a == b
  {
    if a != [] {
      assert a == [a[0]] + a[1..] && b == [b[0]] + b[1..];
      JoinOctetsFirst(a);
      JoinOctetsFirst(b);
      FieldOctetsDecode(a[0], OctetsAfterFirst(a), b[0], OctetsAfterFirst(b));
      if |a| > 1 {
        assert OctetsAfterFirst(a)[1..] == JoinOctets(a[1..]) && OctetsAfterFirst(b)[1..] == JoinOctets(b[1..]);
        JoinOctetsInjective(a[1..], b[1..]);
      }
    }
  }

  /** The octets that are signed determine the octets of every field, and nothing less. */
  lemma {:induction false} SignedOctetsUnique(a: seq<Text>, b: seq<Text>)
    requires |a| == |b|
    ensures Utf8(Join(a)) == Utf8(Join(b)) <==> Utf8All(a) == Utf8All(b)
  {
    Utf8OfJoin(a);
    Utf8OfJoin(b);
    if Utf8(Join(a)) == Utf8(Join(b)) {
      JoinOctetsInjective(Utf8All(a), Utf8All(b));
    }
  }

  // ---------------------------------------------------------------- from octets back to text

  /** No surrogate stands alone. */
  predicate WellFormedText(t: Text) {
    t == [] || (if StartsWithPair(t) then WellFormedText(t[2..]) else !High(t[0]) && !Low(t[0]) && WellFormedText(t[1..]))
  }

  lemma SixBitGroups(n: nat)
    ensures n == n / 0x40000 * 0x40000 + n / 4096 % 64 * 4096 + n / 64 % 64 * 64 + n % 64
  {
    assert n / 64 / 64 == n / 4096;
    assert n / 4096 / 64 == n / 0x40000;
  }

  function CodePoint(h: Unit, l: Unit): nat
    requires High(h) && Low(l)
  {
    0x10000 + (h - 0xd800) * 0x400 + (l - 0xdc00)
  }

  lemma PairDetermined(h: Unit, l: Unit, h': Unit, l': Unit)
    requires High(h) && Low(l) && High(h') && Low(l') && EncodePair(h, l) == EncodePair(h', l')
    ensures h == h' && l == l'
  {
    var x, y := EncodePair(h, l), EncodePair(h', l');
    assert x[0] == y[0] && x[1] == y[1] && x[2] == y[2] && x[3] == y[3];
    SixBitGroups(CodePoint(h, l));
    SixBitGroups(CodePoint(h', l'));
  }

  lemma UnitDetermined(u: Unit, v: Unit)
    requires !High(u) && !Low(u) && !High(v) && !Low(v) && EncodeUnit(u) == EncodeUnit(v)
    ensures u == v
  {
    var x, y := EncodeUnit(u), EncodeUnit(v);
    assert |x| == |y| && x[0] == y[0];
    if |x| == 2 {
      assert x[1] == y[1];
      assert u == u / 64 * 64 + u % 64 && v == v / 64 * 64 + v % 64;
    } else if |x| == 3 {
      assert x[1] == y[1] && x[2] == y[2];
      GroupsDetermine(u, v);
    }
  }

  lemma GroupsDetermine(m: nat, n: nat)
    requires m / 4096 == n / 4096 && m / 64 % 64 == n / 64 % 64 && m % 64 == n % 64
    ensures m == n
  {
    assert m / 64 == m / 4096 * 64 + m / 64 % 64;
    assert n / 64 == n / 4096 * 64 + n / 64 % 64;
  }

  /** The first octet tells how many octets the character takes. */
  lemma {:induction false} LeadOctet(t: Text)
    requires t != [] && WellFormedText(t)
    ensures var h := Head(t).0;
      h != [] && |h| == if h[0] < 0x80 then 1 else if h[0] < 0xe0 then 2 else if h[0] < 0xf0 then 3 else 4
    ensures |Head(t).0| == 4 <==> StartsWithPair(t)
    ensures Utf8(t) == Head(t).0 + Utf8(t[Head(t).1..])
  {}

  /** Without lone surrogates, equal octets mean equal text. */
  lemma {:induction false} Utf8Injective(a: Text, b: Text)
    requires WellFormedText(a) && WellFormedText(b) && Utf8(a) == Utf8(b)
    ensures a == b
  {
    if a != [] && b != [] {
      LeadOctet(a);
      LeadOctet(b);
      var ha, na := Head(a).0, Head(a).1;
      var hb, nb := Head(b).0, Head(b).1;
      assert Utf8(a)[0] == ha[0] && Utf8(b)[0] == hb[0];
      assert ha == Utf8(a)[..|ha|] && hb == Utf8(b)[..|hb|];
      assert Utf8(a[na..]) == Utf8(a)[|ha|..] && Utf8(b[nb..]) == Utf8(b)[|hb|..];
      Utf8Injective(a[na..], b[nb..]);
      if StartsWithPair(a) {
        PairDetermined(a[0], a[1], b[0], b[1]);
      } else {
        UnitDetermined(a[0], b[0]);
      }
      assert a == a[..na] + a[na..] && b == b[..nb] + b[nb..];
    } else {
      assert a != [] ==> Utf8(a) != [] by { if a != [] { LeadOctet(a); } }
      assert b != [] ==> Utf8(b) != [] by { if b != [] { LeadOctet(b); } }
    }
  }

  /** The text a verifier sees: pairs kept, each lone surrogate replaced by U+FFFD. */
  function Scrub(t: Text): Text {
    if t == [] then []
    else if StartsWithPair(t) then [t[0], t[1]] + Scrub(t[2..])
    else [if High(t[0]) || Low(t[0]) then 0xfffd else t[0]] + Scrub(t[1..])
  }

  lemma {:induction false} ScrubKeepsOctets(t: Text)
    ensures WellFormedText(Scrub(t)) && Utf8(Scrub(t)) == Utf8(t)
  {
    if StartsWithPair(t) {
      ScrubKeepsOctets(t[2..]);
      assert Scrub(t)[2..] == Scrub(t[2..]);
    } else if t != [] {
      ScrubKeepsOctets(t[1..]);
      assert Scrub(t)[1..] == Scrub(t[1..]);
      ReplacementOctets(t[0]);
    }
  }

  lemma ReplacementOctets(u: Unit)
    ensures EncodeUnit(if High(u) || Low(u) then 0xfffd else u) == EncodeUnit(u)
  {}

  lemma {:induction false} ScrubWellFormed(t: Text)
    ensures Scrub(t) == t <==> WellFormedText(t)
  {
    if StartsWithPair(t) {
      ScrubWellFormed(t[2..]);
      assert t == [t[0], t[1]] + t[2..] && Scrub(t)[2..] == Scrub(t[2..]);
    } else if t != [] {
      ScrubWellFormed(t[1..]);
      assert t == [t[0]] + t[1..] && Scrub(t)[1..] == Scrub(t[1..]);
    }
  }

  /** Exactly which texts share their octets. */
  lemma {:induction false} SameOctetsIff(a: Text, b: Text)
    ensures Utf8(a) == Utf8(b) <==> Scrub(a) == Scrub(b)
  {
    ScrubKeepsOctets(a);
    ScrubKeepsOctets(b);
    if Utf8(a) == Utf8(b) {
      Utf8Injective(Scrub(a), Scrub(b));
    }
  }

  /**
   * The signed octets determine every field exactly up to its lone surrogates: two payloads have the
   * same signed octets if and only if their fields agree once each lone surrogate is U+FFFD.
   */
  lemma {:induction false} SignedFieldsUnique(a: seq<Text>, b: seq<Text>)
    requires |a| == |b|
    ensures Utf8(Join(a)) == Utf8(Join(b)) <==> forall i :: 0 <= i < |a| ==> Scrub(a[i]) == Scrub(b[i])
  {
    SignedOctetsUnique(a, b);
    forall i | 0 <= i < |a|
      ensures Utf8All(a)[i] == Utf8All(b)[i] <==> Scrub(a[i]) == Scrub(b[i])
    {
      SameOctetsIff(a[i], b[i]);
    }
  }

  /** A lone surrogate in a field, and only that, lets a different field pass for it. */
  lemma {:induction false} FieldForgeableIff(a: Text)
    ensures (exists b :: b != a && WellFormedText(b) && Utf8(b) == Utf8(a)) <==> !WellFormedText(a)
  {
    if WellFormedText(a) {
      forall b | WellFormedText(b) && Utf8(b) == Utf8(a)
        ensures b == a
      {
        Utf8Injective(a, b);
      }
    } else {
      ScrubWellFormed(a);
      ScrubKeepsOctets(a);
      assert Scrub(a) != a && WellFormedText(Scrub(a));
    }
  }

  /** Two messages that differ in their body only, for any normalisation that leaves lone surrogates alone. */
  lemma {:induction false} LoneSurrogatesCollide(p: SmsParams, nfc: Text -> Text)
    requires nfc([0xd800]) == [0xd800] && nfc([0xfffd]) == [0xfffd]
    ensures var x, y := BuildCanonicalSmsPayload(p.(body := [0xd800]), nfc), BuildCanonicalSmsPayload(p.(body := [0xfffd]), nfc);
      x != y && Utf8(x) == Utf8(y)
  {
    var a, b := SmsFields(p.(body := [0xd800]), nfc), SmsFields(p.(body := [0xfffd]), nfc);
    var u: Text, v: Text := [0xd800], [0xfffd];
    assert a[4] == u && b[4] == v && u[0] != v[0];
    SmsPayloadUnique(p.(body := u), p.(body := v), nfc);
    assert u[1..] == [] && v[1..] == [];
    assert Scrub(u) == Scrub(v);
    SignedFieldsUnique(a, b);
  }

  // ---------------------------------------------------------------- the forms written out

  /** A length in decimal, as code units. */
  function LengthText(t: Text): (r: Text)
    ensures |r| == |Digits(|Utf8(t)|)| && forall i :: 0 <= i < |r| ==> r[i] == 0x30 + Digits(|Utf8(t)|)[i]
  {
    Units(Digits(|Utf8(t)|))
  }

  /** `len(a):a` 0x1e `len(b):b` 0x1e `len(c):c` 0x1e `len(d):d` 0x1e `len(e):e` */
  function FiveFields(a: Text, b: Text, c: Text, d: Text, e: Text): Text {
    LengthText(a) + [0x3a] + a + [0x1e] + (LengthText(b) + [0x3a] + b + [0x1e] + (LengthText(c) + [0x3a] + c + [0x1e]
    + (LengthText(d) + [0x3a] + d + [0x1e] + (LengthText(e) + [0x3a] + e))))
  }

  lemma {:induction false} JoinFive(a: Text, b: Text, c: Text, d: Text, e: Text)
    ensures Join([a, b, c, d, e]) == FiveFields(a, b, c, d, e)
  {
    assert [a, b, c, d, e][1..] == [b, c, d, e] && [b, c, d, e][1..] == [c, d, e];
    assert [c, d, e][1..] == [d, e] && [d, e][1..] == [e];
    assert Join([e]) == EncodeField(e) + [];
    var tail4 := EncodeField(d) + [RECORD_SEPARATOR] + EncodeField(e);
    assert Join([d, e]) == tail4;
    var tail3 := EncodeField(c) + [RECORD_SEPARATOR] + tail4;
    assert Join([c, d, e]) == tail3;
    var tail2 := EncodeField(b) + [RECORD_SEPARATOR] + tail3;
    assert Join([b, c, d, e]) == tail2;
  }

  /** Both payloads written out: which field stands where, and what separates them. */
  lemma PayloadsWrittenOut(p: SmsParams, q: RotationParams, nfc: Text -> Text)
    ensures BuildCanonicalSmsPayload(p, nfc)
         == FiveFields(nfc(p.deviceId), nfc(p.nonce), nfc(p.timestamp), nfc(p.sender), nfc(p.body))
    ensures BuildCanonicalKeyRotationPayload(q, nfc)
         == FiveFields(nfc(q.deviceId), nfc(q.nonce), nfc(q.timestamp),
                       nfc([0x72, 0x6f, 0x74, 0x61, 0x74, 0x65, 0x2d, 0x6b, 0x65, 0x79]), nfc(q.newPublicKey))
  {
    JoinFive(nfc(p.deviceId), nfc(p.nonce), nfc(p.timestamp), nfc(p.sender), nfc(p.body));
    JoinFive(nfc(q.deviceId), nfc(q.nonce), nfc(q.timestamp), nfc(ROTATE_KEY_MARKER), nfc(q.newPublicKey));
  }

  /** An octet without the bits that mark its place. */
  function Payload(b: Byte, mark: nat): int {
    b as int - mark
  }

  /** The octets that spell a code point (section 3 of RFC 3629): the shortest form, six bits to a continuation octet. */
  predicate Spells(b: seq<Byte>, cp: nat) {
    && (forall i :: 1 <= i < |b| ==> 0 <= Payload(b[i], 0x80) < 64)
    && match |b|
       case 1 => cp < 0x80 && b[0] == cp
       case 2 => 0x80 <= cp < 0x800 && cp == 64 * Payload(b[0], 0xc0) + Payload(b[1], 0x80)
       case 3 => 0x800 <= cp < 0x10000
                 && cp == 4096 * Payload(b[0], 0xe0) + 64 * Payload(b[1], 0x80) + Payload(b[2], 0x80)
       case 4 => 0x10000 <= cp < 0x110000
                 && cp == 262144 * Payload(b[0], 0xf0) + 4096 * Payload(b[1], 0x80) + 64 * Payload(b[2], 0x80) + Payload(b[3], 0x80)
       case _ => false
  }

  lemma UnitSpells(u: Unit)
    ensures Spells(EncodeUnit(u), if 0xd800 <= u < 0xe000 then 0xfffd else u)
  {
    SixBitGroups(u);
    assert u < 0x800 ==> u == u / 64 * 64 + u % 64;
  }

  lemma PairSpells(h: Unit, l: Unit)
    requires 0xd800 <= h < 0xdc00 && 0xdc00 <= l < 0xe000
    ensures Spells(EncodePair(h, l), 0x10000 + (h as int - 0xd800) * 1024 + (l as int - 0xdc00))
  {
    SixBitGroups(CodePoint(h, l));
  }

  /** Text is spelt code point by code point; a surrogate without its partner is spelt as U+FFFD. */
  lemma {:induction false} Utf8SpellsCodePoints(t: Text)
    ensures Utf8([]) == []
    ensures t != [] ==>
      var pair := |t| > 1 && 0xd800 <= t[0] < 0xdc00 && 0xdc00 <= t[1] < 0xe000;
      var cp := if pair then 0x10000 + (t[0] as int - 0xd800) * 1024 + (t[1] as int - 0xdc00)
                else if 0xd800 <= t[0] < 0xe000 then 0xfffd else t[0];
      Spells(Head(t).0, cp) && Utf8(t) == Head(t).0 + Utf8(t[if pair then 2 else 1..])
  {
    if t != [] {
      UnitSpells(t[0]);
      if |t| > 1 && 0xd800 <= t[0] < 0xdc00 && 0xdc00 <= t[1] < 0xe000 {
        PairSpells(t[0], t[1]);
      }
    }
  }
}
