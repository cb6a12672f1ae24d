/** The CSS scanner behind pseudo-element styles (design/support.js, `scanUnquotedUrl`,
  `stripComments` and `importantify`).

  Every scanning function below takes the text that is left and answers how much of it the
  next piece takes, so a scanner's position is simply the text after it. */
module PseudoCss {

  // ---------------------------------------------------------------- characters

  /** What the regular expression class \s and String.trim treat as white space. */
  predicate IsSpace(c: char) {
    || '\t' <= c <= '\r' || c == ' ' || c == '\U{A0}' || c == '\U{1680}' || '\U{2000}' <= c <= '\U{200A}'
    || c == '\U{2028}' || c == '\U{2029}' || c == '\U{202F}' || c == '\U{205F}' || c == '\U{3000}' || c == '\U{FEFF}'
  }

  predicate IsIdent(c: char) {
    'a' <= c <= 'z' || 'A' <= c <= 'Z' || '0' <= c <= '9' || c == '_' || c == '-'
  }

  predicate IsQuote(c: char) {
    c == '"' || c == '\''
  }

  predicate IdentBefore(css: string, i: nat)
    requires i <= |css|
  {
    i > 0 && IsIdent(css[i - 1])
  }

  // ---------------------------------------------------------------- tokens

  function SpaceLen(s: string): (n: nat)
    ensures n <= |s| && (n < |s| ==> !IsSpace(s[n])) && forall i :: 0 <= i < n ==> IsSpace(s[i])
  {
    if s == [] || !IsSpace(s[0]) then 0 else 1 + SpaceLen(s[1..])
  }

  /** Up to and including the closing quote `q`, or everything. */
  function QuoteLen(q: char, s: string): (n: nat)
    ensures n <= |s| && (s != [] ==> n > 0)
  {
    if s == [] then 0
    else if s[0] == '\\' then (if |s| == 1 then 1 else 2 + QuoteLen(q, s[2..]))
    else if s[0] == q then 1
    else 1 + QuoteLen(q, s[1..])
  }

  /** Up to and including the closing parenthesis, or everything. */
  function ParenLen(s: string): (n: nat)
    ensures n <= |s| && (s != [] ==> n > 0)
  {
    if s == [] then 0
    else if s[0] == ')' then 1
    else if s[0] == '\\' then (if |s| == 1 then 1 else 2 + ParenLen(s[2..]))
    else 1 + ParenLen(s[1..])
  }

  /** Up to and including the end of the comment, or everything. */
  function CommentLen(s: string): (n: nat)
    ensures n <= |s|
  {
    if |s| < 2 then |s|
    else if s[0] == '*' && s[1] == '/' then 2
    else 1 + CommentLen(s[1..])
  }

  predicate OpensUrl(s: string) {
    |s| >= 4 && (s[0] == 'u' || s[0] == 'U') && (s[1] == 'r' || s[1] == 'R') && (s[2] == 'l' || s[2] == 'L') && s[3] == '('
  }

  /** White space, then a quote. */
  predicate QuotedArgument(s: string) {
    SpaceLen(s) < |s| && IsQuote(s[SpaceLen(s)])
  }

  /** The length of the unquoted url(...) that starts here, or 0. */
  function UrlLen(ident: bool, s: string): (n: nat)
    ensures n <= |s| && (n > 0 ==> n >= 4)
  {
    if ident || !OpensUrl(s) || QuotedArgument(s[4..]) then 0
    else 4 + SpaceLen(s[4..]) + ParenLen(s[4..][SpaceLen(s[4..])..])
  }

  datatype Kind = Quoted | Comment | Url | Plain

  datatype Token = Token(kind: Kind, text: string)

  function KindOf(ident: bool, s: string): Kind
    requires s != []
  {
    if IsQuote(s[0]) then Quoted
    else if s[0] == '/' && |s| > 1 && s[1] == '*' then Comment
    else if UrlLen(ident, s) > 0 then Url
    else Plain
  }

  /** The length of the token that starts here; `ident` says whether a name character precedes. */
  function TokenLen(ident: bool, s: string): (n: nat)
    requires s != []
    ensures 0 < n <= |s|
  {
    match KindOf(ident, s)
    case Quoted => 1 + QuoteLen(s[0], s[1..])
    case Comment => 2 + CommentLen(s[2..])
    case Url => UrlLen(ident, s)
    case Plain => 1
  }

  function Lex(ident: bool, s: string): seq<Token>
    decreases |s|
  {
    if s == [] then []
    else
      var n := TokenLen(ident, s);
      [Token(KindOf(ident, s), s[..n])] + Lex(IsIdent(s[n - 1]), s[n..])
  }

  function Text(tokens: seq<Token>): string {
    if tokens == [] then [] else tokens[0].text + Text(tokens[1..])
  }

  /** A comment reads as one space; every other token as itself. */
  function Blank(t: Token): Token {
    if t.kind == Comment then Token(Plain, " ") else t
  }

  function Blanked(tokens: seq<Token>): seq<Token> {
    if tokens == [] then [] else [Blank(tokens[0])] + Blanked(tokens[1..])
  }

  /** The text with its comments blanked. */
  function Strip(ident: bool, s: string): string
    decreases |s|
  {
    if s == [] then []
    else
      var n := TokenLen(ident, s);
      (if KindOf(ident, s) == Comment then " " else s[..n]) + Strip(IsIdent(s[n - 1]), s[n..])
  }

  lemma {:induction false} LexText(ident: bool, s: string)
    ensures Text(Lex(ident, s)) == s
    decreases |s|
  {
    hide KindOf, TokenLen, IsIdent;
    if s != [] {
      var n := TokenLen(ident, s);
      LexText(IsIdent(s[n - 1]), s[n..]);
      assert s == s[..n] + s[n..];
    }
  }

  lemma {:induction false} StripText(ident: bool, s: string)
    ensures Strip(ident, s) == Text(Blanked(Lex(ident, s)))
    decreases |s|
  {
    hide KindOf, TokenLen, IsIdent;
    if s != [] {
      var n := TokenLen(ident, s);
      StripText(IsIdent(s[n - 1]), s[n..]);
    }
  }

  // ---------------------------------------------------------------- the scanners

  method SkipSpace(css: string, from: nat) returns (j: nat)
    requires from <= |css|
    ensures j == from + SpaceLen(css[from..])
  {
    j := from;
    while j < |css| && IsSpace(css[j])
      invariant from <= j <= |css|
      invariant j + SpaceLen(css[j..]) == from + SpaceLen(css[from..])
    {
      assert css[j..][1..] == css[j + 1..];
      j := j + 1;
    }
  }

  method ScanParen(css: string, from: nat) returns (end: nat)
    requires from <= |css|
    ensures end == from + ParenLen(css[from..])
  {
    var j := from;
    while j < |css| && css[j] != ')'
      invariant from <= j
      invariant from + ParenLen(css[from..]) == if j <= |css| then j + ParenLen(css[j..]) else |css|
    {
      if css[j] == '\\' {
        if j + 2 <= |css| { assert css[j..][2..] == css[j + 2..]; }
        j := j + 1;
      } else {
        assert css[j..][1..] == css[j + 1..];
      }
      j := j + 1;
    }
    end := if j < |css| then j + 1 else |css|;
  }

  method ScanUnquotedUrl(css: string, i: nat) returns (end: int)
    requires i < |css|
    ensures var n := UrlLen(IdentBefore(css, i), css[i..]); end == if n == 0 then -1 else i + n
  {
    if (css[i] != 'u' && css[i] != 'U') || !OpensUrl(css[i..]) || IdentBefore(css, i) {
      return -1;
    }
    assert css[i..][4..] == css[i + 4..];
    var j := SkipSpace(css, i + 4);
    if j < |css| && IsQuote(css[j]) {
      return -1;
    }
    assert css[i + 4..][SpaceLen(css[i + 4..])..] == css[j..];
    end := ScanParen(css, j);
  }

  /** Where the closing mark of a comment next begins, or -1. */
  function IndexOfClose(css: string, from: nat): (at: int)
    ensures at == -1 || at >= from
    decreases |css| - from
  {
    if from + 2 > |css| then -1
    else if css[from] == '*' && css[from + 1] == '/' then from
    else IndexOfClose(css, from + 1)
  }

  lemma {:induction false} IndexOfCloseIsCommentLen(css: string, from: nat)
    requires from <= |css|
    ensures var at := IndexOfClose(css, from);
      if at == -1 then from + CommentLen(css[from..]) == |css| else at + 2 == from + CommentLen(css[from..])
    decreases |css| - from
  {
    if from + 2 <= |css| && !(css[from] == '*' && css[from + 1] == '/') {
      IndexOfCloseIsCommentLen(css, from + 1);
      assert css[from..][1..] == css[from + 1..];
    }
  }

  /** The rest of the output when the scan stands inside a string opened by `q`. */
  function StripQuoted(q: char, s: string): string
    decreases |s|
  {
    if s == [] then []
    else if s[0] == '\\' then (if |s| == 1 then s else [s[0], s[1]] + StripQuoted(q, s[2..]))
    else if s[0] == q then [q] + Strip(IsIdent(q), s[1..])
    else [s[0]] + StripQuoted(q, s[1..])
  }

  lemma StripNil(ident: bool)
    ensures Strip(ident, []) == []
  {
  }

  lemma StripStart(css: string)
    ensures StripRest(css, 0, "") == Strip(false, css)
  {
    assert css[0..] == css;
  }

  /** Cutting `m` characters into `t` is cutting that much further into `pre + t`. */
  lemma Deeper(pre: string, t: string, m: nat, tail: string)
    requires m <= |t|
    ensures (pre + t)[..|pre| + m] + tail == pre + (t[..m] + tail)
    ensures (pre + t)[|pre| + m..] == t[m..]
  {
  }

  lemma {:induction false} StripQuotedIsToken(q: char, s: string)
    requires s != []
    ensures var n := QuoteLen(q, s); StripQuoted(q, s) == s[..n] + Strip(IsIdent(s[n - 1]), s[n..])
    decreases |s|
  {
    hide Strip, IsIdent;
    var n := QuoteLen(q, s);
    var k := if s[0] == '\\' then 2 else 1;
    if (s[0] == q && k == 1) || |s| <= k {
      StripNil(IsIdent(s[n - 1]));
      assert s[..n] == if s[0] == q && k == 1 then [q] else s;
    } else {
      var pre, t := s[..k], s[k..];
      assert s == pre + t;
      var m := QuoteLen(q, t);
      assert n == k + m;
      StripQuotedIsToken(q, t);
      Deeper(pre, t, m, Strip(IsIdent(s[n - 1]), s[n..]));
      assert StripQuoted(q, s) == pre + StripQuoted(q, t);
    }
  }

  /** What is still to be written when the loop of `stripComments` stands at `i`, inside a string
      opened by `quote` or outside any. */
  function StripRest(css: string, i: nat, quote: string): string
    requires |quote| <= 1
  {
    if i >= |css| then []
    else if quote == [] then Strip(IdentBefore(css, i), css[i..])
    else StripQuoted(quote[0], css[i..])
  }

  method StripComments(css: string) returns (out: string)
    ensures out == Strip(false, css)
  {
    StripStart(css);
    hide Strip, StripQuoted, StripRest, UrlLen, SpaceLen, ParenLen, CommentLen, QuoteLen, IdentBefore;
    out := "";
    var quote := "";
    var i := 0;
    while i < |css|
      invariant |quote| <= 1
      invariant out + StripRest(css, i, quote) == Strip(false, css)
    {
      var c := css[i];
      if quote != "" {
        if c == '\\' {
          QuoteEscape(css, i, quote);
          var next := if i + 1 < |css| then [css[i + 1]] else "";
          Written(out, [c] + next, StripRest(css, i + 2, quote));
          out := out + ([c] + next);
          i := i + 2;
          continue;
        }
        QuoteStep(css, i, quote);
        if [c] == quote {
          quote := "";
        }
        Written(out, [c], StripRest(css, i + 1, quote));
        out := out + [c];
      } else if c == '\'' || c == '"' {
        QuoteOpens(css, i);
        quote := [c];
        Written(out, [c], StripRest(css, i + 1, quote));
        out := out + [c];
      } else if c == '/' && i + 1 < |css| && css[i + 1] == '*' {
        var end := IndexOfClose(css, i + 2);
        CommentSkips(css, i);
        i := if end == -1 then |css| else end + 1;
        StripEnd(css, i + 1);
        Written(out, " ", StripRest(css, i + 1, ""));
        out := out + " ";
      } else {
        var end := ScanUnquotedUrl(css, i);
        OtherSkips(css, i);
        if end == -1 {
          Written(out, [c], StripRest(css, i + 1, ""));
          out := out + [c];
        } else {
          Written(out, css[i..end], StripRest(css, end, ""));
          out := out + css[i..end];
          i := end - 1;
        }
      }
      i := i + 1;
    }
    StripEnd(css, i);
  }

  lemma Written(out: string, piece: string, rest: string)
    ensures out + (piece + rest) == (out + piece) + rest
  {
  }

  lemma StripEnd(css: string, i: nat)
    ensures forall quote | |quote| <= 1 && i >= |css| :: StripRest(css, i, quote) == ""
  {
  }

  lemma StripSplit(css: string, i: nat)
    requires i < |css|
    ensures var n := TokenLen(IdentBefore(css, i), css[i..]);
      && i + n <= |css|
      && Strip(IdentBefore(css, i), css[i..]) ==
           (if KindOf(IdentBefore(css, i), css[i..]) == Comment then " " else css[i..i + n])
           + Strip(IdentBefore(css, i + n), css[i + n..])
  {
    hide KindOf, TokenLen, IsIdent, Strip;
    var s, n := css[i..], TokenLen(IdentBefore(css, i), css[i..]);
    assert s[..n] == css[i..i + n] && s[n..] == css[i + n..] && s[n - 1] == css[i + n - 1];
    StripFirstPart(IdentBefore(css, i), s);
  }

  lemma StripFirstPart(ident: bool, s: string)
    requires s != []
    ensures var n := TokenLen(ident, s);
      Strip(ident, s) == (if KindOf(ident, s) == Comment then " " else s[..n]) + Strip(IsIdent(s[n - 1]), s[n..])
  {
    hide KindOf, TokenLen, IsIdent;
  }

  /** An unquoted url(...) is copied whole, any other character alone. */
  lemma OtherSkips(css: string, i: nat)
    requires i < |css|
    requires KindOf(IdentBefore(css, i), css[i..]) != Quoted && KindOf(IdentBefore(css, i), css[i..]) != Comment
    ensures var n := UrlLen(IdentBefore(css, i), css[i..]);
      StripRest(css, i, "") == (if n == 0 then [css[i]] + StripRest(css, i + 1, "")
                                else css[i..i + n] + StripRest(css, i + n, ""))
  {
    hide Strip, UrlLen;
    StripSplit(css, i);
    assert css[i..][0] == css[i];
    assert css[i..i + 1] == [css[i]];
    if i + 1 == |css| { StripNil(IdentBefore(css, i + 1)); assert css[i + 1..] == []; }
    var n := UrlLen(IdentBefore(css, i), css[i..]);
    if i + n == |css| { StripNil(IdentBefore(css, i + n)); assert css[i + n..] == []; }
  }

  lemma QuoteOpens(css: string, i: nat)
    requires i < |css| && IsQuote(css[i])
    ensures StripRest(css, i, "") == [css[i]] + StripRest(css, i + 1, [css[i]])
  {
    hide Strip, UrlLen, StripQuoted, QuoteLen;
    StripSplit(css, i);
    var s, t := css[i..], css[i + 1..];
    assert s == [css[i]] + t;
    if t == [] {
      StripNil(IdentBefore(css, i + 1));
      assert css[i..i + 1] == [css[i]];
    } else {
      var m := QuoteLen(css[i], t);
      StripQuotedIsToken(css[i], t);
      assert css[i..i + 1 + m] == [css[i]] + t[..m] && css[i + 1 + m..] == t[m..];
      assert t[m - 1] == css[i + m];
      Written([css[i]], t[..m], Strip(IdentBefore(css, i + 1 + m), t[m..]));
    }
  }

  lemma CommentSkips(css: string, i: nat)
    requires i + 1 < |css| && css[i] == '/' && css[i + 1] == '*'
    ensures var end := IndexOfClose(css, i + 2);
      end >= -1 && StripRest(css, i, "") == " " + (if end == -1 then [] else StripRest(css, end + 2, ""))
  {
    hide Strip, KindOf, TokenLen, CommentLen, IdentBefore, IndexOfClose, StripQuoted;
    CommentStarts(IdentBefore(css, i), css[i..]);
    IndexOfCloseIsCommentLen(css, i + 2);
    var end, n := IndexOfClose(css, i + 2), TokenLen(IdentBefore(css, i), css[i..]);
    StripSplit(css, i);
    assert css[i..][2..] == css[i + 2..];
    assert if end == -1 then i + n == |css| else i + n == end + 2;
    if i + n == |css| {
      StripNil(IdentBefore(css, i + n));
      assert css[i + n..] == [];
    }
  }

  lemma CommentStarts(ident: bool, s: string)
    requires |s| > 1 && s[0] == '/' && s[1] == '*'
    ensures KindOf(ident, s) == Comment && TokenLen(ident, s) == 2 + CommentLen(s[2..])
  {
    hide CommentLen, UrlLen;
  }

  /** Inside a string, an ordinary character is copied and may close it. */
  lemma QuoteStep(css: string, i: nat, quote: string)
    requires i < |css| && |quote| == 1 && css[i] != '\\'
    ensures StripRest(css, i, quote) ==
      [css[i]] + StripRest(css, i + 1, if css[i] == quote[0] then "" else quote)
  {
    hide Strip, IsIdent;
    var s := css[i..];
    assert s[0] == css[i] && s[1..] == css[i + 1..];
    StripNil(IsIdent(quote[0]));
  }

  /** Inside a string, a backslash carries the next character with it. */
  lemma QuoteEscape(css: string, i: nat, quote: string)
    requires i < |css| && |quote| == 1 && css[i] == '\\'
    ensures StripRest(css, i, quote) ==
      [css[i]] + (if i + 1 < |css| then [css[i + 1]] else "") + StripRest(css, i + 2, quote)
  {
    hide Strip, IsIdent;
    var s := css[i..];
    assert s[0] == css[i];
    if i + 1 < |css| {
      assert s[1] == css[i + 1] && s[2..] == css[i + 2..];
      assert [s[0], s[1]] == [css[i]] + [css[i + 1]];
    } else {
      assert s == [css[i]];
    }
  }
}
