/** What the CSS scanners do to texts written out character by character (design/support.js,
  `stripComments` and `importantify`). */
module CssMeaning {
  import opened PseudoCss
  import opened CssLaws
  import opened Importantify

  // ---------------------------------------------------------------- strings

  /** The inside of a string closed by `q`: that quote and the backslash stand in it only behind a
      backslash. */
  predicate StringBody(q: char, s: string)
    decreases |s|
  {
    s == [] || if s[0] == '\\' then |s| > 1 && StringBody(q, s[2..]) else s[0] != q && StringBody(q, s[1..])
  }

  lemma {:induction false} BodyLen(q: char, body: string, rest: string)
    requires StringBody(q, body) && (q == '"' || q == '\'')
    ensures QuoteLen(q, body + [q] + rest) == |body| + 1
    decreases |body|
  {
    var s := body + [q] + rest;
    if body != [] {
      var k := if body[0] == '\\' then 2 else 1;
      assert s[0] == body[0] && s[k..] == body[k..] + [q] + rest;
      BodyLen(q, body[k..], rest);
    }
  }

  lemma StringToken(ident: bool, q: char, body: string, rest: string)
    requires StringBody(q, body) && (q == '"' || q == '\'')
    ensures var s := [q] + body + [q] + rest;
      KindOf(ident, s) == Quoted && TokenLen(ident, s) == |body| + 2 && !IsIdent(q)
  {
    hide QuoteLen, UrlLen, StringBody;
    var s := [q] + body + [q] + rest;
    assert s[0] == q && s[1..] == body + [q] + rest;
    BodyLen(q, body, rest);
  }

  /** A string in either kind of quotes comes through whatever it holds, comment marks and semicolons
      included, and what follows it is stripped as if the text began there. */
  lemma StringStays(ident: bool, q: char, body: string, rest: string)
    requires StringBody(q, body) && (q == '"' || q == '\'')
    ensures Strip(ident, [q] + body + [q] + rest) == [q] + body + [q] + Strip(false, rest)
  {
    hide KindOf, TokenLen, IsIdent, Strip;
    var s := [q] + body + [q] + rest;
    StringToken(ident, q, body, rest);
    StripFirstPart(ident, s);
    assert s[..|body| + 2] == [q] + body + [q] && s[|body| + 2..] == rest && s[|body| + 1] == q;
  }

  // ---------------------------------------------------------------- comments, urls and single characters

  /** Nowhere in the text does a comment end. */
  predicate NoEnd(s: string) {
    forall i :: 0 <= i < |s| - 1 ==> !(s[i] == '*' && s[i + 1] == '/')
  }

  lemma {:induction false} CommentBody(body: string, rest: string)
    requires NoEnd(body)
    ensures CommentLen(body + "*/" + rest) == |body| + 2
    ensures CommentLen(body) == |body|
    decreases |body|
  {
    var s := body + "*/" + rest;
    if body != [] {
      assert s[0] == body[0] && s[1..] == body[1..] + "*/" + rest;
      assert |body| > 1 ==> s[1] == body[1];
      assert NoEnd(body[1..]) by {
        forall i | 0 <= i < |body[1..]| - 1 ensures !(body[1..][i] == '*' && body[1..][i + 1] == '/') {
          assert !(body[i + 1] == '*' && body[i + 2] == '/');
        }
      }
      CommentBody(body[1..], rest);
    }
  }

  /** A comment becomes one blank, up to its first end mark or, without one, the end of the text. */
  lemma CommentGoes(ident: bool, body: string, rest: string)
    requires NoEnd(body)
    ensures Strip(ident, "/*" + body + "*/" + rest) == " " + Strip(false, rest)
    ensures Strip(ident, "/*" + body) == " "
  {
    CommentBody(body, rest);
    var s, t := "/*" + body + "*/" + rest, "/*" + body;
    assert s[2..] == body + "*/" + rest && t[2..] == body;
    CommentStarts(ident, s);
    CommentStarts(ident, t);
    assert !IsIdent('/');
    hide Strip, KindOf, TokenLen, IsIdent, CommentLen;
    StripFirstPart(ident, s);
    StripFirstPart(ident, t);
    assert s[|body| + 4..] == rest && s[|body| + 3] == '/';
    assert t[|body| + 2..] == [];
    StripNil(IsIdent(t[|t| - 1]));
  }

  /** Any other character but the first letter of `url` is copied alone. */
  lemma CharacterStays(ident: bool, c: char, rest: string)
    requires c !in {'"', '\'', '/', 'u', 'U'}
    ensures Strip(ident, [c] + rest) == [c] + Strip(IsIdent(c), rest)
  {
    var s := [c] + rest;
    assert KindOf(ident, s) == Plain;
    hide Strip, KindOf, IsIdent;
    StripFirst(ident, s);
    assert s[1..] == rest;
  }

  /** Behind a letter, a digit, an underscore or a hyphen, `url(` is not special. */
  lemma UrlAfterName(ident: bool, c: char, rest: string)
    requires 'a' <= c <= 'z' || 'A' <= c <= 'Z' || '0' <= c <= '9' || c == '_' || c == '-'
    ensures Strip(ident, [c] + ("url(" + rest)) == [c] + ("url(" + Strip(false, rest))
  {
    NameIsPlain(ident, c, "url(" + rest);
    CallIsStripped(rest);
    hide Strip, KindOf, IsIdent;
    PlainFirst(ident, c, "url(" + rest);
  }

  lemma PlainFirst(ident: bool, c: char, t: string)
    requires KindOf(ident, [c] + t) == Plain
    ensures Strip(ident, [c] + t) == [c] + Strip(IsIdent(c), t)
  {
    hide Strip, KindOf, IsIdent;
    StripFirst(ident, [c] + t);
    assert ([c] + t)[1..] == t;
  }

  lemma CallIsStripped(rest: string)
    ensures Strip(true, "url(" + rest) == "url(" + Strip(false, rest)
  {
    CallIsPlain(rest);
    hide Strip, KindOf, IsIdent;
    var t := "url(" + rest;
    assert t[0] == 'u' && t[1..] == ['r'] + ("l(" + rest) && "l(" + rest == ['l'] + ("(" + rest) && "(" + rest == ['('] + rest;
    StripFirst(true, t);
    CharacterStays(true, 'r', "l(" + rest);
    CharacterStays(true, 'l', "(" + rest);
    CharacterStays(true, '(', rest);
    FourCharacters(Strip(false, rest));
  }

  lemma FourCharacters(rest: string)
    ensures ['u'] + (['r'] + (['l'] + (['('] + rest))) == "url(" + rest
  {
  }

  lemma NameIsPlain(ident: bool, c: char, t: string)
    requires 'a' <= c <= 'z' || 'A' <= c <= 'Z' || '0' <= c <= '9' || c == '_' || c == '-'
    requires |t| >= 3 && t[0] == 'u'
    ensures KindOf(ident, [c] + t) == Plain && IsIdent(c)
  {
    hide SpaceLen, ParenLen;
    var s := [c] + t;
    assert s[0] == c && s[1] == 'u';
  }

  lemma CallIsPlain(rest: string)
    ensures KindOf(true, "url(" + rest) == Plain
    ensures IsIdent('u') && IsIdent('r') && IsIdent('l') && !IsIdent('(')
  {
    hide SpaceLen, ParenLen;
  }

  /** The argument of an unquoted url: no closing parenthesis but behind a backslash. */
  predicate UrlBody(s: string)
    decreases |s|
  {
    s == [] || if s[0] == '\\' then |s| > 1 && UrlBody(s[2..]) else s[0] != ')' && UrlBody(s[1..])
  }

  lemma {:induction false} UrlBodyLen(body: string, rest: string)
    requires UrlBody(body)
    ensures ParenLen(body + ")" + rest) == |body| + 1
    decreases |body|
  {
    var s := body + ")" + rest;
    if body != [] {
      var k := if body[0] == '\\' then 2 else 1;
      assert s[0] == body[0] && s[k..] == body[k..] + ")" + rest;
      UrlBodyLen(body[k..], rest);
    }
  }

  /** An unquoted url in any case, at the start or behind no name character, comes through whatever
      its argument holds: quotes, comment marks and semicolons included. */
  lemma UrlStays(url: string, body: string, rest: string)
    requires |url| == 4 && url[0] in {'u', 'U'} && url[1] in {'r', 'R'} && url[2] in {'l', 'L'} && url[3] == '('
    requires UrlBody(body) && body != [] && !IsSpace(body[0]) && body[0] != '"' && body[0] != '\''
    ensures Strip(false, url + body + ")" + rest) == url + body + ")" + Strip(false, rest)
  {
    var s := url + body + ")" + rest;
    assert s[4..] == body + ")" + rest && s[4..][0] == body[0];
    UrlBodyLen(body, rest);
    SpaceLenIs(s[4..], 0);
    assert s[4..][0..] == s[4..];
    assert UrlLen(false, s) == 4 + |body| + 1;
    assert KindOf(false, s) == Url && !IsIdent(')');
    hide Strip, KindOf, IsIdent, UrlLen, ParenLen, SpaceLen;
    StripFirstPart(false, s);
    assert TokenLen(false, s) == |body| + 5;
    assert s[..|body| + 5] == url + body + ")" && s[|body| + 5..] == rest && s[|body| + 4] == ')';
  }

  // ---------------------------------------------------------------- where declarations end

  /** The text holds no string, no comment and no unquoted url. */
  predicate Unquoted(s: string) {
    forall i :: 0 <= i < |s| ==> s[i] !in {'"', '\'', '/'} && !OpensUrl(s[i..])
  }

  /** The first semicolon with no more opening than closing parentheses before it; closing ones
      without partner do not count. */
  function SemicolonAt(s: string, open: nat): (n: nat)
    ensures n <= |s|
  {
    if s == [] || (s[0] == ';' && open == 0) then 0
    else 1 + SemicolonAt(s[1..], if s[0] == '(' then open + 1 else if s[0] == ')' && open > 0 then open - 1 else open)
  }

  lemma UnquotedTail(s: string)
    requires Unquoted(s) && s != []
    ensures Unquoted(s[1..])
  {
    hide OpensUrl;
    forall i | 0 <= i < |s| - 1 ensures s[1..][i] !in {'"', '\'', '/'} && !OpensUrl(s[1..][i..]) {
      assert s[1..][i] == s[i + 1] && s[1..][i..] == s[i + 1..];
    }
  }

  lemma UnquotedChar(ident: bool, s: string)
    requires Unquoted(s) && s != []
    ensures KindOf(ident, s) == Plain && TokenLen(ident, s) == 1
  {
    hide SpaceLen, ParenLen;
    assert s[0..] == s;
  }

  lemma {:induction false} BreaksAtSemicolon(ident: bool, open: nat, s: string)
    requires Unquoted(s)
    ensures Break(ident, open, s) == SemicolonAt(s, open)
    decreases |s|
  {
    hide KindOf, TokenLen, IsIdent, Unquoted, Break;
    if s == [] {
      BreakNil(ident, open);
    } else if s[0] == ';' && open == 0 {
      BreakStops(ident, s);
    } else {
      UnquotedChar(ident, s);
      UnquotedTail(s);
      BreakScans(ident, open, s);
      BreaksAtSemicolon(IsIdent(s[0]), NextDepth(s[0], open), s[1..]);
    }
  }

  lemma BreakStops(ident: bool, s: string)
    requires s != [] && s[0] == ';'
    ensures Break(ident, 0, s) == 0
  {
  }

  lemma {:induction false} UnquotedStays(ident: bool, s: string)
    requires Unquoted(s)
    ensures Strip(ident, s) == s
    decreases |s|
  {
    hide KindOf, TokenLen, IsIdent, Unquoted, Strip;
    if s == [] {
      StripNil(ident);
    } else {
      UnquotedChar(ident, s);
      UnquotedTail(s);
      StripFirstPart(ident, s);
      UnquotedStays(IsIdent(s[0]), s[1..]);
      assert s == s[..1] + s[1..];
    }
  }

  // ---------------------------------------------------------------- whole declarations

  /** A trimmed declaration without strings, comments, urls, parentheses and semicolons. */
  predicate Simple(d: string) {
    && d != [] && !IsSpace(d[0]) && !IsSpace(d[|d| - 1])
    && forall i :: 0 <= i < |d| ==> d[i] !in {'"', '\'', '/', '(', ')', ';'}
  }

  /** The characters the language counts as white space that a style sheet is likely to hold. */
  predicate IsBlank(w: string) {
    forall i :: 0 <= i < |w| ==> w[i] in {' ', '\t', '\n', '\r'}
  }

  lemma {:induction false} NoSemicolon(s: string, rest: string)
    requires PlainText(s)
    ensures SemicolonAt(s, 0) == |s| && SemicolonAt(s + ";" + rest, 0) == |s|
  {
    var t := s + ";" + rest;
    if s != [] {
      assert t[0] == s[0] && t[1..] == s[1..] + ";" + rest;
      NoSemicolon(s[1..], rest);
    }
  }

  lemma UnquotedWhenNoParen(s: string)
    requires forall i :: 0 <= i < |s| ==> s[i] !in {'"', '\'', '/', '('}
    ensures Unquoted(s)
  {
    forall i | 0 <= i < |s| ensures !OpensUrl(s[i..]) {
      assert i + 3 < |s| ==> s[i..][3] == s[i + 3];
    }
  }

  lemma UnmarkedGets(d: string)
    requires d != [] && d[|d| - 1] !in {'t', 'T'}
    ensures Mark(d) == d + " !important"
  {
    assert IMPORTANT[8] == 't';
    if |d| >= 9 { assert !SameLetter(d[|d| - 9 + 8], IMPORTANT[8]); }
  }

  lemma BlankIsSpace(w: string)
    requires IsBlank(w)
    ensures AllSpace(w)
  {
  }

  lemma {:induction false} TrimEndBlank(d: string, w: string)
    requires AllSpace(w) && d != [] && !IsSpace(d[|d| - 1])
    ensures TrimEnd(d + w) == d
    decreases |w|
  {
    hide IsSpace;
    if w == [] {
      assert d + w == d;
      TrimEndDark(d);
    } else {
      assert (d + w)[..|d + w| - 1] == d + w[..|w| - 1];
      TrimEndBlank(d, w[..|w| - 1]);
    }
  }

  lemma TrimBlank(v: string, d: string, w: string)
    requires IsBlank(v) && IsBlank(w) && d != [] && !IsSpace(d[0]) && !IsSpace(d[|d| - 1])
    ensures Trim(v + d + w) == d
  {
    BlankIsSpace(v);
    BlankIsSpace(w);
    hide IsSpace, TrimEnd;
    var s := v + d + w;
    SpaceLenIs(s, |v|);
    assert s[|v|..] == d + w;
    TrimEndBlank(d, w);
  }

  /** Two plain declarations, with any blanks around them: each is trimmed and marked, and they are
      joined by a semicolon again. */
  lemma TwoDeclarations(v: string, a: string, w: string, x: string, b: string, y: string)
    requires IsBlank(v) && IsBlank(w) && IsBlank(x) && IsBlank(y) && Simple(a) && Simple(b)
    requires a[|a| - 1] !in {'t', 'T'} && b[|b| - 1] !in {'t', 'T'}
    ensures Importantified(v + a + w + ";" + (x + b + y)) == a + " !important" + ";" + (b + " !important")
  {
    PlainCharacters(v, a, w);
    PlainCharacters(x, b, y);
    hide Simple, IsBlank, Mark, Trim, Importantified, PlainText;
    TrimSimple(v, a, w);
    TrimSimple(x, b, y);
    TwoParts(v + a + w, x + b + y);
    UnmarkedGets(a);
    UnmarkedGets(b);
    JoinedTwo(Mark(a), Mark(b));
  }

  /** No string, comment, url, parenthesis or semicolon. */
  predicate PlainText(s: string) {
    forall i :: 0 <= i < |s| ==> s[i] !in {'"', '\'', '/', '(', ')', ';'}
  }

  lemma TwoParts(left: string, right: string)
    requires PlainText(left) && PlainText(right) && Trim(left) != "" && Trim(right) != ""
    ensures Importantified(left + ";" + right) == Joined([Mark(Trim(left))] + [Mark(Trim(right))])
  {
    hide PlainText, Unquoted, Strip, Break, Mark, Trim, Pieces, Joined;
    var css := left + ";" + right;
    BothUnquoted(left, right);
    UnquotedStays(false, css);
    BreaksAtSemicolon(false, 0, css);
    BreaksAtSemicolon(false, 0, right);
    NoSemicolon(left, right);
    NoSemicolon(right, []);
    PiecesWhole(css);
    PiecesWhole(right);
    assert css[..|left|] == left && css[|left| + 1..] == right;
    MarkedMore(left, [right]);
    MarkedOne(right);
  }

  lemma BothUnquoted(left: string, right: string)
    requires PlainText(left) && PlainText(right)
    ensures Unquoted(left + ";" + right) && Unquoted(right)
  {
    hide Unquoted;
    var css := left + ";" + right;
    forall i | 0 <= i < |css| ensures css[i] !in {'"', '\'', '/', '('} {
      if i < |left| { assert css[i] == left[i]; } else if i > |left| { assert css[i] == right[i - |left| - 1]; }
    }
    UnquotedWhenNoParen(css);
    UnquotedWhenNoParen(right);
  }

  lemma PlainCharacters(v: string, d: string, w: string)
    requires IsBlank(v) && IsBlank(w) && Simple(d)
    ensures PlainText(v + d + w)
  {
    var s := v + d + w;
    forall i | 0 <= i < |s| ensures s[i] !in {'"', '\'', '/', '(', ')', ';'} {
      if i < |v| { assert s[i] == v[i]; }
      else if i < |v| + |d| { assert s[i] == d[i - |v|]; }
      else { assert s[i] == w[i - |v| - |d|]; }
    }
  }

  lemma TrimSimple(v: string, d: string, w: string)
    requires IsBlank(v) && IsBlank(w) && Simple(d)
    ensures Trim(v + d + w) == d && d != ""
  {
    TrimBlank(v, d, w);
  }

  lemma JoinedTwo(a: string, b: string)
    ensures Joined([a] + [b]) == a + ";" + b
  {
    var ds := [a] + [b];
    assert ds[0] == a && ds[1..] == [b] && Joined(ds[1..]) == b;
  }

  /** A declaration that already ends in `!` and "important", in any case and with blanks between,
      is left as it is. */
  lemma AlreadyImportant(d: string, w: string, word: string)
    requires IsBlank(w) && |word| == 9
    requires word[0] in {'i', 'I'} && word[1] in {'m', 'M'} && word[2] in {'p', 'P'} && word[3] in {'o', 'O'}
      && word[4] in {'r', 'R'} && word[5] in {'t', 'T'} && word[6] in {'a', 'A'} && word[7] in {'n', 'N'} && word[8] in {'t', 'T'}
    ensures Mark(d + "!" + w + word) == d + "!" + w + word
  {
    var s, head := d + "!" + w + word, d + "!";
    BlankIsSpace(w);
    assert s[..|s| - 9] == head + w;
    TrimEndBlank(head, w);
    forall i | 0 <= i < 9 ensures SameLetter(s[|s| - 9 + i], IMPORTANT[i]) { assert s[|s| - 9 + i] == word[i]; }
    hide SameLetter, TrimEnd;
    assert IsImportant(s);
  }

  /** A declaration that is one string, whatever it holds, is neither stripped nor split: it gets
      the mark. */
  lemma StringIsOneDeclaration(q: char, body: string)
    requires StringBody(q, body) && (q == '"' || q == '\'')
    ensures Importantified([q] + body + [q]) == [q] + body + [q] + " !important"
  {
    var d := [q] + body + [q];
    assert d + [] == d;
    StringStays(false, q, body, []);
    StringToken(false, q, body, []);
    assert [q] + body + [q] + [] == d;
    StripNil(false);
    hide Strip, Break, KindOf, TokenLen, IsIdent, Mark, Trim, Pieces;
    BreakScans(false, 0, d);
    assert d[|d|..] == [];
    BreakNil(IsIdent(d[|d| - 1]), NextDepth(d[0], 0));
    PiecesWhole(d);
    MarkedOne(d);
    DarkIsTrimmed(d);
    UnmarkedGets(d);
    JoinedOne(Mark(d));
  }

  lemma JoinedOne(a: string)
    ensures Joined([a]) == a
  {
  }
}
