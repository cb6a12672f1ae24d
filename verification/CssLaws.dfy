/** Laws of the comment stripper (design/support.js, `stripComments`). */
module CssLaws {
  import opened PseudoCss

  // ---------------------------------------------------------------- a closed token is decided by its own text

  lemma {:induction false} QuotePrefix(q: char, s: string, t: string)
    requires QuoteLen(q, s) < |s|
    requires var n := QuoteLen(q, s); n <= |t| && t[..n] == s[..n]
    ensures QuoteLen(q, t) == QuoteLen(q, s)
    decreases |s|
  {
    var n := QuoteLen(q, s);
    assert forall i :: 0 <= i < n ==> t[..n][i] == s[..n][i];
    if s[0] == '\\' {
      assert t[2..][..n - 2] == s[2..][..n - 2];
      QuotePrefix(q, s[2..], t[2..]);
    } else if s[0] != q {
      assert t[1..][..n - 1] == s[1..][..n - 1];
      QuotePrefix(q, s[1..], t[1..]);
    }
  }

  lemma {:induction false} ParenPrefix(s: string, t: string)
    requires ParenLen(s) < |s|
    requires var n := ParenLen(s); n <= |t| && t[..n] == s[..n]
    ensures ParenLen(t) == ParenLen(s)
    decreases |s|
  {
    var n := ParenLen(s);
    assert forall i :: 0 <= i < n ==> t[..n][i] == s[..n][i];
    if s[0] == ')' {
    } else if s[0] == '\\' {
      assert t[2..][..n - 2] == s[2..][..n - 2];
      ParenPrefix(s[2..], t[2..]);
    } else {
      assert t[1..][..n - 1] == s[1..][..n - 1];
      ParenPrefix(s[1..], t[1..]);
    }
  }

  lemma {:induction false} SpaceLenIs(s: string, k: nat)
    requires k <= |s| && (forall i :: 0 <= i < k ==> IsSpace(s[i])) && (k < |s| ==> !IsSpace(s[k]))
    ensures SpaceLen(s) == k
  {
    if k > 0 {
      SpaceLenIs(s[1..], k - 1);
    }
  }

  lemma UrlPrefix(ident: bool, s: string, t: string)
    requires 0 < UrlLen(ident, s) < |s|
    requires var n := UrlLen(ident, s); n <= |t| && t[..n] == s[..n]
    ensures UrlLen(ident, t) == UrlLen(ident, s)
  {
    hide IsSpace, SpaceLen, ParenLen;
    var n := UrlLen(ident, s);
    var a, b := s[4..], t[4..];
    var k := SpaceLen(a);
    assert n == 4 + k + ParenLen(a[k..]);
    assert forall i :: 0 <= i < n ==> t[..n][i] == s[..n][i];
    assert forall i :: 0 <= i < n - 4 ==> b[i] == a[i];
    assert a[k..] != [];
    SpaceLenIs(b, k);
    assert b[k..][..n - 4 - k] == a[k..][..n - 4 - k];
    ParenPrefix(a[k..], b[k..]);
  }

  lemma TokenPrefix(ident: bool, s: string, t: string)
    requires s != [] && KindOf(ident, s) in {Quoted, Url} && TokenLen(ident, s) < |s|
    requires var n := TokenLen(ident, s); n <= |t| && t[..n] == s[..n]
    ensures KindOf(ident, t) == KindOf(ident, s) && TokenLen(ident, t) == TokenLen(ident, s)
  {
    hide UrlLen, QuoteLen;
    var n := TokenLen(ident, s);
    assert t[..n][0] == s[..n][0];
    if KindOf(ident, s) == Quoted {
      assert t[1..][..n - 1] == s[1..][..n - 1];
      QuotePrefix(s[0], s[1..], t[1..]);
    } else {
      UrlStart(ident, s);
      UrlPrefix(ident, s, t);
    }
  }

  lemma UrlStart(ident: bool, s: string)
    requires UrlLen(ident, s) > 0
    ensures !ident && (s[0] == 'u' || s[0] == 'U')
  {
  }

  // ---------------------------------------------------------------- what stripping leaves in place

  lemma {:induction false} CommentEnd(r: string)
    requires CommentLen(r) < |r|
    ensures CommentLen(r) > 0 && r[CommentLen(r) - 1] == '/'
  {
    if !(r[0] == '*' && r[1] == '/') {
      CommentEnd(r[1..]);
    }
  }

  lemma StripFirst(ident: bool, s: string)
    ensures var o := Strip(ident, s);
      o != [] ==> s != [] && (o[0] == s[0] || o[0] == ' ')
    ensures s != [] && KindOf(ident, s) == Plain ==>
      Strip(ident, s) == [s[0]] + Strip(IsIdent(s[0]), s[1..])
    ensures s != [] && IsQuote(s[0]) ==> Strip(ident, s) != [] && Strip(ident, s)[0] == s[0]
  {
    hide UrlLen, QuoteLen, CommentLen, IsIdent;
    if s != [] {
      var n := TokenLen(ident, s);
      assert s[..n][0] == s[0];
      assert n == 1 ==> s[..n] == [s[0]];
    }
  }

  /** The rest of "url(", after its u. */
  predicate UrlTail(s: string) {
    |s| >= 3 && (s[0] == 'r' || s[0] == 'R') && (s[1] == 'l' || s[1] == 'L') && s[2] == '('
  }

  lemma UrlParts(c: char, r: string)
    ensures UrlLen(false, [c] + r) == 0 <==> !((c == 'u' || c == 'U') && UrlTail(r)) || QuotedArgument(r[3..])
    ensures UrlLen(true, [c] + r) == 0
  {
    hide SpaceLen, ParenLen, QuotedArgument;
    var s := [c] + r;
    if UrlTail(r) { assert s[4..] == r[3..]; }
  }

  lemma LetterIsPlain(s: string)
    requires s != [] && !IsQuote(s[0]) && s[0] != '/'
    ensures KindOf(true, s) == Plain
  {
    hide OpensUrl, QuotedArgument;
  }

  lemma StripUrlTail(s: string)
    requires UrlTail(Strip(true, s))
    ensures UrlTail(s) && Strip(true, s)[3..] == Strip(false, s[3..])
  {
    hide Strip;
    var o := Strip(true, s);
    StripFirst(true, s);
    LetterIsPlain(s);
    var o1 := Strip(true, s[1..]);
    assert o == [s[0]] + o1;
    assert o1[0] == o[1] && o1[1] == o[2];
    StripFirst(true, s[1..]);
    LetterIsPlain(s[1..]);
    assert s[1..][1..] == s[2..];
    var o2 := Strip(true, s[2..]);
    assert o1 == [s[1]] + o2;
    assert o2[0] == o[2];
    StripFirst(true, s[2..]);
    LetterIsPlain(s[2..]);
    assert s[2..][1..] == s[3..];
  }

  lemma {:induction false} StripQuotedArgument(ident: bool, s: string)
    requires QuotedArgument(s)
    ensures QuotedArgument(Strip(ident, s))
    decreases |s|
  {
    hide Strip;
    StripFirst(ident, s);
    if IsSpace(s[0]) {
      UrlParts(s[0], s[1..]);
      assert s == [s[0]] + s[1..];
      assert KindOf(ident, s) == Plain;
      assert QuotedArgument(s[1..]);
      StripQuotedArgument(IsIdent(s[0]), s[1..]);
      var o := Strip(ident, s);
      assert o[1..] == Strip(IsIdent(s[0]), s[1..]);
    }
  }

  /** A plain character is still plain before the stripped rest of its text. */
  lemma PlainStays(ident: bool, s: string)
    requires s != [] && KindOf(ident, s) == Plain
    ensures KindOf(ident, [s[0]] + Strip(IsIdent(s[0]), s[1..])) == Plain
  {
    hide Strip, UrlLen, QuotedArgument;
    var c, r := s[0], s[1..];
    var o := Strip(IsIdent(c), r);
    assert s == [c] + r;
    StripFirst(IsIdent(c), r);
    UrlParts(c, r);
    UrlParts(c, o);
    if !ident && (c == 'u' || c == 'U') && UrlTail(o) {
      StripUrlTail(r);
      StripQuotedArgument(false, r[3..]);
    }
  }

  // ---------------------------------------------------------------- the laws

  /** The first token of the stripped text is the first token of the text, where a comment has
      become a blank, and the scan goes on behind it from the same state. */
  ghost predicate FirstTokenKept(ident: bool, s: string)
    requires s != []
  {
    var n := TokenLen(ident, s);
    var o, tail := Strip(ident, s), Strip(IsIdent(s[n - 1]), s[n..]);
    var t := Blank(Token(KindOf(ident, s), s[..n]));
    && t.text != [] && o == t.text + tail
    && KindOf(ident, o) == t.kind && TokenLen(ident, o) == |t.text|
    && (tail != [] ==> IsIdent(o[|t.text| - 1]) == IsIdent(s[n - 1]))
  }

  lemma CommentKept(ident: bool, s: string)
    requires s != [] && KindOf(ident, s) == Comment
    ensures FirstTokenKept(ident, s)
  {
    hide KindOf, TokenLen, IsIdent, Strip;
    var n := TokenLen(ident, s);
    var after, rest := IsIdent(s[n - 1]), s[n..];
    var tail := Strip(after, rest);
    CommentIsFollowed(ident, s);
    BlankIsPlain(ident, tail);
    StripFirstPart(ident, s);
    assert Strip(ident, s) == [' '] + tail;
    if rest == [] { StripNil(after); }
  }

  lemma PlainKept(ident: bool, s: string)
    requires s != [] && KindOf(ident, s) == Plain
    ensures FirstTokenKept(ident, s)
  {
    hide KindOf, TokenLen, IsIdent, Strip;
    PlainIsOne(ident, s);
    PlainStays(ident, s);
    StripFirstPart(ident, s);
    assert s[..1] == [s[0]];
    var o := [s[0]] + Strip(IsIdent(s[0]), s[1..]);
    assert Strip(ident, s) == o;
    PlainIsOne(ident, o);
  }

  lemma ClosedKept(ident: bool, s: string)
    requires s != [] && KindOf(ident, s) in {Quoted, Url}
    ensures FirstTokenKept(ident, s)
  {
    hide KindOf, TokenLen, IsIdent, Strip;
    var n := TokenLen(ident, s);
    var rest := s[n..];
    StripFirstPart(ident, s);
    var o := Strip(ident, s);
    if rest == [] {
      StripNil(IsIdent(s[n - 1]));
      assert o == s;
    } else {
      assert o[..n] == s[..n];
      TokenPrefix(ident, s, o);
    }
  }

  lemma StripFirstToken(ident: bool, s: string)
    requires s != []
    ensures FirstTokenKept(ident, s)
  {
    hide FirstTokenKept;
    match KindOf(ident, s) {
      case Comment => CommentKept(ident, s);
      case Plain => PlainKept(ident, s);
      case _ => ClosedKept(ident, s);
    }
  }

  lemma PlainIsOne(ident: bool, s: string)
    requires s != [] && KindOf(ident, s) == Plain
    ensures TokenLen(ident, s) == 1
  {
  }

  lemma BlankIsPlain(ident: bool, tail: string)
    ensures KindOf(ident, [' '] + tail) == Plain && TokenLen(ident, [' '] + tail) == 1 && !IsIdent(' ')
  {
    UrlParts(' ', tail);
  }

  /** What follows a comment does not follow a name character. */
  lemma CommentIsFollowed(ident: bool, s: string)
    requires s != [] && KindOf(ident, s) == Comment
    ensures var n := TokenLen(ident, s); n < |s| ==> !IsIdent(s[n - 1])
  {
    hide UrlLen, QuoteLen, CommentLen;
    var n := TokenLen(ident, s);
    if n < |s| {
      CommentEnd(s[2..]);
      assert s[n - 1] == s[2..][n - 3];
    }
  }

  lemma LexFirst(ident: bool, s: string)
    requires s != []
    ensures var n := TokenLen(ident, s);
      Lex(ident, s) == [Token(KindOf(ident, s), s[..n])] + Lex(IsIdent(s[n - 1]), s[n..])
  {
  }

  lemma LexNil(ident: bool)
    ensures Lex(ident, []) == []
  {
  }

  /** Scanning the stripped text finds the same tokens, with a blank for each comment: every
      quoted string and every unquoted url(...) is left exactly as it was, closed or not. */
  lemma {:induction false} StripKeepsTokens(ident: bool, s: string)
    ensures Lex(ident, Strip(ident, s)) == Blanked(Lex(ident, s))
    decreases |s|
  {
    hide TokenLen, KindOf, IsIdent;
    if s != [] {
      var n := TokenLen(ident, s);
      var after, rest := IsIdent(s[n - 1]), s[n..];
      StripKeepsTokens(after, rest);
      StripFirstToken(ident, s);
      LexFirst(ident, s);
      var o, tail := Strip(ident, s), Strip(after, rest);
      var t := Blank(Token(KindOf(ident, s), s[..n]));
      LexFirst(ident, o);
      assert o[..|t.text|] == t.text && o[|t.text|..] == tail;
      if tail == [] { LexNil(after); LexNil(IsIdent(o[|t.text| - 1])); }
    }
  }

  lemma {:induction false} BlankedTwice(tokens: seq<Token>)
    ensures Blanked(Blanked(tokens)) == Blanked(tokens)
  {
    if tokens != [] {
      BlankedTwice(tokens[1..]);
    }
  }

  lemma StripIdempotent(ident: bool, s: string)
    ensures Strip(ident, Strip(ident, s)) == Strip(ident, s)
  {
    StripKeepsTokens(ident, s);
    StripText(ident, s);
    StripText(ident, Strip(ident, s));
    BlankedTwice(Lex(ident, s));
  }
}
