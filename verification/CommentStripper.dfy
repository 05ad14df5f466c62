/**
 * The string-literal-aware comment stripper of the gateway porting scripts
 * (scripts/port-gateways/analyze.py:27-70).
 */
module CommentStripper {
  import opened Common

  predicate Quote(c: char) { c == '"' || c == '\'' }

  /** From the next newline on, or nothing. */
  function DropLine(s: string): (r: string)
    ensures |r| <= |s| && (r != [] ==> r[0] == '\n') && (s != [] && s[0] != '\n' ==> |r| < |s|)
  {
    if s == [] || s[0] == '\n' then s else DropLine(s[1..])
  }

  /** From after the next end-of-comment mark on, or nothing. */
  function DropBlock(s: string): (r: string)
    ensures |r| <= |s|
  {
    if |s| < 2 then [] else if s[0] == '*' && s[1] == '/' then s[2..] else DropBlock(s[1..])
  }

  predicate LineComment(s: string) {
    s != [] && (s[0] == '#' || (|s| > 1 && s[0] == '/' && s[1] == '/'))
  }

  predicate BlockComment(s: string) {
    |s| > 1 && s[0] == '/' && s[1] == '*'
  }

  /** The text without comments; `q` is the quote of the literal we are inside of, if any. */
  function Strip(s: string, q: Option<char>): string
    decreases |s|
  {
    if s == [] then []
    else if q.Some? then
      if s[0] == '\\' && |s| > 1 then s[..2] + Strip(s[2..], q)
      else [s[0]] + Strip(s[1..], if s[0] == q.value then None else q)
    else if Quote(s[0]) then [s[0]] + Strip(s[1..], Some(s[0]))
    else if LineComment(s) then Strip(DropLine(s), None)
    else if BlockComment(s) then [' '] + Strip(DropBlock(s[2..]), None)
    else [s[0]] + Strip(s[1..], None)
  }

  /** The literals outside comments, quotes and escapes included; a last one may be unterminated. */
  function Literals(s: string, q: Option<char>, soFar: string): seq<string>
    decreases |s|
  {
    if s == [] then (if q.Some? then [soFar] else [])
    else if q.Some? then
      if s[0] == '\\' && |s| > 1 then Literals(s[2..], q, soFar + s[..2])
      else if s[0] == q.value then [soFar + [s[0]]] + Literals(s[1..], None, [])
      else Literals(s[1..], q, soFar + [s[0]])
    else if Quote(s[0]) then Literals(s[1..], Some(s[0]), [s[0]])
    else if LineComment(s) then Literals(DropLine(s), None, [])
    else if BlockComment(s) then Literals(DropBlock(s[2..]), None, [])
    else Literals(s[1..], None, [])
  }

  // ---------------------------------------------------------------- the walker

  /** src.find('\n', i), or the end of the text. */
  method FindNewline(src: string, i: nat) returns (j: nat)
    requires i <= |src|
    ensures i <= j <= |src| && src[j..] == DropLine(src[i..])
  {
    j := i;
    while j < |src| && src[j] != '\n'
      invariant i <= j <= |src| && DropLine(src[j..]) == DropLine(src[i..])
    {
      assert src[j..][1..] == src[j + 1..];
      j := j + 1;
    }
  }

  /** The position after the next "*" "/" from i on, or the end of the text. */
  method FindBlockEnd(src: string, i: nat) returns (j: nat)
    requires i <= |src|
    ensures i <= j <= |src| && src[j..] == DropBlock(src[i..])
  {
    j := i;
    while j + 1 < |src|
      invariant i <= j <= |src| && DropBlock(src[j..]) == DropBlock(src[i..])
    {
      if src[j] == '*' && src[j + 1] == '/' {
        assert src[j..][2..] == src[j + 2..];
        return j + 2;
      }
      assert src[j..][1..] == src[j + 1..];
      j := j + 1;
    }
    j := |src|;
  }

  /** What the walker will have written, when it stands at i with `out` written so far. */
  ghost function Final(src: string, out: string, i: nat, q: Option<char>): string
    requires i <= |src|
  {
    out + Strip(src[i..], q)
  }

  lemma {:induction false} Emit(src: string, out: string, i: nat, q: Option<char>, n: nat, text: string, q': Option<char>)
    requires i < |src| && i + n <= |src| && Strip(src[i..], q) == text + Strip(src[i + n..], q')
    ensures Final(src, out, i, q) == Final(src, out + text, i + n, q')
  {
    ConcatAssoc(out, text, Strip(src[i + n..], q'));
  }

  lemma Suffixes(src: string, i: nat)
    requires i < |src|
    ensures src[i..] != [] && src[i..][0] == src[i] && src[i..][1..] == src[i + 1..]
    ensures i + 1 < |src| ==> src[i..][1] == src[i + 1] && src[i..][2..] == src[i + 2..] && src[i..][..2] == src[i..i + 2]
  {}

  lemma InsideStep(src: string, out: string, i: nat, q: char)
    requires i < |src|
    ensures if src[i] == '\\' && i + 1 < |src| then Final(src, out, i, Some(q)) == Final(src, out + src[i..i + 2], i + 2, Some(q))
            else Final(src, out, i, Some(q)) == Final(src, out + [src[i]], i + 1, if src[i] == q then None else Some(q))
  {
    Suffixes(src, i);
    if src[i] == '\\' && i + 1 < |src| {
      Emit(src, out, i, Some(q), 2, src[i..i + 2], Some(q));
    } else {
      Emit(src, out, i, Some(q), 1, [src[i]], if src[i] == q then None else Some(q));
    }
  }

  lemma CopyStep(src: string, out: string, i: nat)
    requires i < |src| && !LineComment(src[i..]) && !BlockComment(src[i..])
    ensures Final(src, out, i, None) == Final(src, out + [src[i]], i + 1, if Quote(src[i]) then Some(src[i]) else None)
  {
    Suffixes(src, i);
    Emit(src, out, i, None, 1, [src[i]], if Quote(src[i]) then Some(src[i]) else None);
  }

  lemma LineStep(src: string, out: string, i: nat, j: nat)
    requires i < |src| && LineComment(src[i..]) && i <= j <= |src| && src[j..] == DropLine(src[i..])
    ensures Final(src, out, i, None) == Final(src, out, j, None) && j > i
  {
    Suffixes(src, i);
  }

  lemma BlockStep(src: string, out: string, i: nat, j: nat)
    requires i < |src| && BlockComment(src[i..]) && i + 2 <= j <= |src| && src[j..] == DropBlock(src[i + 2..])
    ensures Final(src, out, i, None) == Final(src, out + [' '], j, None)
  {
    Suffixes(src, i);
    Emit(src, out, i, None, j - i, [' '], None);
  }

  method StripComments(src: string) returns (out: string)
    ensures out == Strip(src, None)
  {
    out := [];
    var i: nat := 0;
    var inStr: Option<char> := None;
    assert src[0..] == src;
    while i < |src|
      invariant i <= |src| && Final(src, out, i, inStr) == Strip(src, None)
      decreases |src| - i
    {
      var c := src[i];
      if inStr.Some? {
        InsideStep(src, out, i, inStr.value);
        if c == '\\' && i + 1 < |src| {
          out := out + src[i..i + 2];
          i := i + 2;
        } else {
          out := out + [c];
          inStr := if c == inStr.value then None else inStr;
          i := i + 1;
        }
      } else if c == '#' || (c == '/' && i + 1 < |src| && src[i + 1] == '/') {
        var j := FindNewline(src, i);
        LineStep(src, out, i, j);
        i := j;
      } else if c == '/' && i + 1 < |src| && src[i + 1] == '*' {
        var j := FindBlockEnd(src, i + 2);
        BlockStep(src, out, i, j);
        i := j;
        out := out + [' '];
      } else {
        CopyStep(src, out, i);
        inStr := if Quote(c) then Some(c) else None;
        out := out + [c];
        i := i + 1;
      }
    }
    assert src[i..] == [] && out + [] == out;
  }

  // ---------------------------------------------------------------- what stripping means

  /** Text that does not begin with a slash or a star does not begin with one after stripping. */
  lemma {:induction false} HeadStays(s: string)
    requires s != [] ==> s[0] != '/' && s[0] != '*'
    ensures var o := Strip(s, None); o != [] ==> o[0] != '/' && o[0] != '*'
  {
    if s != [] && !Quote(s[0]) && LineComment(s) {
      var rest := DropLine(s);
      assert rest != [] ==> Strip(rest, None)[0] == '\n';
    }
  }

  /** Writing a character that neither opens nor continues a comment, then stripping again, keeps it. */
  lemma {:induction false} PlainHead(c: char, o: string)
    requires !Quote(c) && c != '#' && (c == '/' && o != [] ==> o[0] != '/' && o[0] != '*')
    ensures Strip([c] + o, None) == [c] + Strip(o, None)
    ensures Literals([c] + o, None, []) == Literals(o, None, [])
  {
    assert ([c] + o)[1..] == o;
  }

  lemma {:induction false} QuotedHead(c: char, o: string, q: char, soFar: string)
    requires c != '\\' || o == []
    ensures Strip([c] + o, Some(q)) == [c] + Strip(o, if c == q then None else Some(q))
    ensures Literals([c] + o, Some(q), soFar)
         == if c == q then [soFar + [c]] + Literals(o, None, []) else Literals(o, Some(q), soFar + [c])
  {
    assert ([c] + o)[1..] == o;
  }

  lemma {:induction false} EscapedHead(e: string, o: string, q: char, soFar: string)
    requires |e| == 2 && e[0] == '\\'
    ensures Strip(e + o, Some(q)) == e + Strip(o, Some(q))
    ensures Literals(e + o, Some(q), soFar) == Literals(o, Some(q), soFar + e)
  {
    assert (e + o)[2..] == o && (e + o)[..2] == e;
  }

  lemma {:induction false} OpeningHead(c: char, o: string)
    requires Quote(c)
    ensures Strip([c] + o, None) == [c] + Strip(o, Some(c))
    ensures Literals([c] + o, None, []) == Literals(o, Some(c), [c])
  {
    assert ([c] + o)[1..] == o;
  }

  /** Stripping twice is stripping once, and the string literals survive it, in order and unchanged. */
  lemma {:induction false} StripIsFaithful(s: string, q: Option<char>, soFar: string)
    ensures Strip(Strip(s, q), q) == Strip(s, q)
    ensures Literals(Strip(s, q), q, if q.Some? then soFar else []) == Literals(s, q, if q.Some? then soFar else [])
    decreases |s|
  {
    if s == [] {
    } else if q.Some? {
      if s[0] == '\\' && |s| > 1 {
        StripIsFaithful(s[2..], q, soFar + s[..2]);
        EscapedHead(s[..2], Strip(s[2..], q), q.value, soFar);
      } else {
        var q' := if s[0] == q.value then None else q;
        StripIsFaithful(s[1..], q', soFar + [s[0]]);
        QuotedHead(s[0], Strip(s[1..], q'), q.value, soFar);
      }
    } else if Quote(s[0]) {
      StripIsFaithful(s[1..], Some(s[0]), [s[0]]);
      OpeningHead(s[0], Strip(s[1..], Some(s[0])));
    } else if LineComment(s) {
      StripIsFaithful(DropLine(s), None, []);
    } else if BlockComment(s) {
      StripIsFaithful(DropBlock(s[2..]), None, []);
      PlainHead(' ', Strip(DropBlock(s[2..]), None));
    } else {
      StripIsFaithful(s[1..], None, []);
      if s[0] == '/' {
        HeadStays(s[1..]);
      }
      PlainHead(s[0], Strip(s[1..], None));
    }
  }

  /** No comment is left: the walker finds nothing more to remove in its own output. */
  lemma {:induction false} StripCommentsIdempotent(src: string)
    ensures Strip(Strip(src, None), None) == Strip(src, None)
    ensures Literals(Strip(src, None), None, []) == Literals(src, None, [])
  {
    StripIsFaithful(src, None, []);
  }

  // ---------------------------------------------------------------- what is removed and what is not

  /** Text with neither a hash nor a slash comes back as it is, wherever the walker stands. */
  lemma {:induction false} NoCommentNoChange(s: string, q: Option<char>)
    requires '#' !in s && '/' !in s
    ensures Strip(s, q) == s
    decreases |s|
  {
    if s == [] {
    } else if q.Some? && s[0] == '\\' && |s| > 1 {
      NoCommentNoChange(s[2..], q);
      assert s == s[..2] + s[2..];
    } else {
      var q' := if q.Some? then (if s[0] == q.value then None else q) else if Quote(s[0]) then Some(s[0]) else None;
      NoCommentNoChange(s[1..], q');
      assert s == [s[0]] + s[1..];
    }
  }

  /** Outside a literal a character stays unless it is a hash or a slash before another slash or a star. */
  lemma {:induction false} PlainStays(c: char, rest: string)
    requires c != '"' && c != '\'' && c != '#' && (c == '/' && rest != [] ==> rest[0] != '/' && rest[0] != '*')
    ensures Strip([c] + rest, None) == [c] + Strip(rest, None)
  {
    assert ([c] + rest)[1..] == rest;
  }

  lemma {:induction false} DropLineOf(a: string, rest: string)
    requires '\n' !in a && (rest != [] ==> rest[0] == '\n')
    ensures DropLine(a + rest) == rest
  {
    if a == [] {
      assert a + rest == rest;
    } else {
      DropLineOf(a[1..], rest);
      assert (a + rest)[1..] == a[1..] + rest;
    }
  }

  /** A comment to the end of the line goes, the line break stays; without one everything goes. */
  lemma {:induction false} LineCommentGoes(a: string, rest: string)
    requires '\n' !in a && (rest != [] ==> rest[0] == '\n')
    ensures Strip(['#'] + a + rest, None) == Strip(rest, None)
    ensures Strip(['/', '/'] + a + rest, None) == Strip(rest, None)
    ensures rest != [] ==> Strip(rest, None) == ['\n'] + Strip(rest[1..], None)
    ensures rest == [] ==> Strip(rest, None) == []
  {
    DropLineOf(['#'] + a, rest);
    DropLineOf(['/', '/'] + a, rest);
    var s := ['/', '/'] + a + rest;
    assert s[0] == '/' && s[1] == '/';
  }

  predicate NoEndMark(a: string) {
    forall i :: 0 <= i < |a| - 1 ==> !(a[i] == '*' && a[i + 1] == '/')
  }

  lemma {:induction false} DropBlockOf(a: string, rest: string)
    requires NoEndMark(a)
    ensures DropBlock(a + ['*', '/'] + rest) == rest && DropBlock(a) == []
  {
    var s := a + ['*', '/'] + rest;
    if a == [] {
      assert s[2..] == rest;
    } else {
      assert a[0] == '*' && |a| > 1 ==> a[1] != '/';
      assert s[0] == a[0] && s[1] == if |a| > 1 then a[1] else '*';
      assert s[1..] == a[1..] + ['*', '/'] + rest;
      assert NoEndMark(a[1..]) by {
        forall i | 0 <= i < |a[1..]| - 1
          ensures !(a[1..][i] == '*' && a[1..][i + 1] == '/')
        {
          assert a[1..][i] == a[i + 1] && a[1..][i + 1] == a[i + 1 + 1];
        }
      }
      DropBlockOf(a[1..], rest);
    }
  }

  /** A block comment becomes one space, up to its first end mark or to the end of the text. */
  lemma {:induction false} BlockCommentIsOneSpace(a: string, rest: string)
    requires NoEndMark(a)
    ensures Strip(['/', '*'] + a + ['*', '/'] + rest, None) == [' '] + Strip(rest, None)
    ensures Strip(['/', '*'] + a, None) == [' ']
  {
    DropBlockOf(a, rest);
    var s := ['/', '*'] + a + ['*', '/'] + rest;
    assert s[0] == '/' && s[1] == '*' && s[2..] == a + ['*', '/'] + rest;
    var t := ['/', '*'] + a;
    assert t[0] == '/' && t[1] == '*' && t[2..] == a;
  }

  /** The inside of a literal: the quote itself occurs only after a backslash, and no escape is cut off. */
  predicate Inside(a: string, q: char)
    decreases |a|
  {
    a == [] || (if a[0] == '\\' then |a| > 1 && Inside(a[2..], q) else a[0] != q && Inside(a[1..], q))
  }

  lemma {:induction false} InsideStays(a: string, q: char, rest: string)
    requires Inside(a, q) && q != '\\'
    ensures Strip(a + [q] + rest, Some(q)) == a + [q] + Strip(rest, None)
    ensures Strip(a, Some(q)) == a
    decreases |a|
  {
    var s := a + [q] + rest;
    if a == [] {
      assert s[0] == q && s[1..] == rest;
    } else {
      var n := if a[0] == '\\' then 2 else 1;
      InsideStays(a[n..], q, rest);
      assert s[0] == a[0] && s[..n] == a[..n] && s[n..] == a[n..] + [q] + rest && a == a[..n] + a[n..];
      ConcatAssoc(a[..n], a[n..], [q]);
      ConcatAssoc(a[..n], a[n..] + [q], Strip(rest, None));
      assert n == 1 ==> a[..n] == [a[0]];
    }
  }

  lemma Regroup(q: char, a: string, rest: string)
    ensures [q] + a + [q] + rest == [q] + (a + [q] + rest)
  {}

  /** A literal in double or in single quotes survives as it is, whatever comment marks it holds. */
  lemma {:induction false} LiteralStays(a: string, q: char, rest: string)
    requires (q == '"' || q == '\'') && Inside(a, q)
    ensures Strip([q] + a + [q] + rest, None) == [q] + a + [q] + Strip(rest, None)
    ensures Strip([q] + a, None) == [q] + a
  {
    InsideStays(a, q, rest);
    OpeningHead(q, a + [q] + rest);
    OpeningHead(q, a);
    Regroup(q, a, rest);
    Regroup(q, a, Strip(rest, None));
  }

  /** The case the walker was written for: a URL in a literal keeps its slashes, a comment behind it goes. */
  lemma {:induction false} UrlStays(a: string, b: string, q: char, comment: string)
    requires q == '"' || q == '\''
    requires q !in a && q !in b && '\\' !in a && '\\' !in b && '\n' !in comment
    ensures Strip([q] + (a + ['/', '/'] + b) + [q] + (['/', '/'] + comment), None) == [q] + (a + ['/', '/'] + b) + [q]
  {
    var text := a + ['/', '/'] + b;
    NoQuotesInside(text, q);
    LiteralStays(text, q, ['/', '/'] + comment);
    LineCommentGoes(comment, []);
    assert ['/', '/'] + comment + [] == ['/', '/'] + comment;
  }

  lemma {:induction false} NoQuotesInside(a: string, q: char)
    requires q !in a && '\\' !in a
    ensures Inside(a, q)
  {
    if a != [] {
      NoQuotesInside(a[1..], q);
    }
  }
}
