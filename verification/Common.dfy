/** Small shared vocabulary: optional values and decimal rendering of integers. */
module Common {

  datatype Option<+T> = None | Some(value: T)

  function Pow2(n: nat): (p: nat)
    ensures p >= 1
  {
    if n == 0 then 1 else 2 * Pow2(n - 1)
  }

  /** The decimal digits of `n`, most significant first, with no leading zero. */
  function Digits(n: nat): (ds: seq<nat>)
    ensures |ds| > 0
    ensures forall i :: 0 <= i < |ds| ==> ds[i] < 10
    ensures |ds| > 1 ==> ds[0] != 0
    ensures n > 0 ==> ds[0] != 0
  {
    if n < 10 then [n] else Digits(n / 10) + [n % 10]
  }

  /** The number a digit sequence denotes. */
  function NumberOf(ds: seq<nat>): (n: nat)
  {
    if ds == [] then 0 else 10 * NumberOf(ds[..|ds| - 1]) + ds[|ds| - 1]
  }

  lemma {:induction false} NumberOfDigits(n: nat)
    ensures NumberOf(Digits(n)) == n
  {
    if n < 10 {
      assert [n][..0] == [];
    } else {
      NumberOfDigits(n / 10);
      assert Digits(n)[..|Digits(n)| - 1] == Digits(n / 10);
    }
  }

  /** Digits are read in base ten, the last one counting ones. */
  lemma {:induction false} NumberByDigits(ds: seq<nat>, d: nat)
    ensures NumberOf([]) == 0 && NumberOf(ds + [d]) == 10 * NumberOf(ds) + d
  {
    assert (ds + [d])[..|ds|] == ds;
  }

  function DigitChar(d: nat): (c: char)
    requires d < 10
    ensures c as int == '0' as int + d
  {
    "0123456789"[d]
  }

  /** JavaScript's `${n}` for an integer n: an optional minus sign, then the digits. */
  function Decimal(n: int): (s: string)
    ensures |s| > 0
    ensures forall i :: 0 <= i < |s| ==> s[i] != ':'
  {
    if n < 0 then ['-'] + DecimalNat(-n) else DecimalNat(n)
  }

  function DecimalNat(n: nat): (s: string)
    ensures |s| == |Digits(n)|
    ensures forall i :: 0 <= i < |s| ==> s[i] == DigitChar(Digits(n)[i])
    ensures forall i :: 0 <= i < |s| ==> s[i] != ':' && s[i] != '-'
  {
    seq(|Digits(n)|, i requires 0 <= i < |Digits(n)| => DigitChar(Digits(n)[i]))
  }

  lemma DecimalNatInjective(a: nat, b: nat)
    requires DecimalNat(a) == DecimalNat(b)
    ensures a == b
  {
    forall i | 0 <= i < |Digits(a)|
      ensures Digits(a)[i] == Digits(b)[i]
    {
      assert DecimalNat(a)[i] == DigitChar(Digits(a)[i]);
      assert DecimalNat(b)[i] == DigitChar(Digits(b)[i]);
    }
    assert Digits(a) == Digits(b);
    NumberOfDigits(a);
    NumberOfDigits(b);
  }

  lemma DecimalInjective(a: int, b: int)
    requires Decimal(a) == Decimal(b)
    ensures a == b
  {
    var x := if a < 0 then -a else a;
    var y := if b < 0 then -b else b;
    assert a < 0 ==> Decimal(a)[0] == '-';
    assert b < 0 ==> Decimal(b)[0] == '-';
    assert DecimalNat(x) == if a < 0 then Decimal(a)[1..] else Decimal(a);
    assert DecimalNat(y) == if b < 0 then Decimal(b)[1..] else Decimal(b);
    DecimalNatInjective(x, y);
  }

  /** Text is cut unambiguously at the first occurrence of a separator. */
  lemma SplitAtFirst<T>(a: seq<T>, x: seq<T>, b: seq<T>, y: seq<T>, sep: T)
    requires sep !in a && sep !in b
    requires a + [sep] + x == b + [sep] + y
    ensures a == b && x == y
  {
    var s, t := a + [sep] + x, b + [sep] + y;
    assert s[|a|] == sep && t[|b|] == sep;
    assert a == s[..|a|] && b == t[..|b|];
    assert x == s[|a| + 1..] && y == t[|b| + 1..];
  }

  lemma ConcatAssoc<T>(a: seq<T>, b: seq<T>, c: seq<T>)
    ensures a + b + c == a + (b + c)
  {}
}
