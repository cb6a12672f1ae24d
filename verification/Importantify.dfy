/** Marking every declaration of a pseudo-element style `!important` (design/support.js,
  `importantify`), and why doing it twice changes nothing. */
module Importantify {
  import opened PseudoCss
  import opened CssLaws

  // ---------------------------------------------------------------- splitting

  /** How far one step of the splitter goes: it does not look for comments. */
  function ScanLen(ident: bool, s: string): (n: nat)
    requires s != []
    ensures 0 < n <= |s|
  {
    if KindOf(ident, s) == Comment then 1 else TokenLen(ident, s)
  }

  function NextDepth(c: char, depth: nat): nat {
    if c == '(' then depth + 1 else if c == ')' && depth > 0 then depth - 1 else depth
  }

  /** Where the first semicolon outside quotes, urls and parentheses stands, or the end. */
  function Break(ident: bool, depth: nat, s: string): (n: nat)
    ensures n <= |s| && (n < |s| ==> s[n] == ';')
    decreases |s|
  {
    if s == [] || (s[0] == ';' && depth == 0) then 0
    else
      var k := ScanLen(ident, s);
      k + Break(IsIdent(s[k - 1]), NextDepth(s[0], depth), s[k..])
  }

  function Pieces(s: string): (ps: seq<string>)
    ensures ps != []
    decreases |s|
  {
    var k := Break(false, 0, s);
    if k == |s| then [s] else [s[..k]] + Pieces(s[k + 1..])
  }

  // ---------------------------------------------------------------- the last line

  function TrimEnd(s: string): string {
    if s != [] && IsSpace(s[|s| - 1]) then TrimEnd(s[..|s| - 1]) else s
  }

  function Trim(s: string): string {
    TrimEnd(s[SpaceLen(s)..])
  }

  predicate SameLetter(c: char, lower: char) {
    c == lower || (lower != '!' && 'A' <= c <= 'Z' && (c as int) + 32 == lower as int)
  }

  const IMPORTANT := "important"

  /** The text ends in `!`, white space, and "important" in any case. */
  predicate IsImportant(d: string) {
    |d| >= 9
    && (forall i :: 0 <= i < 9 ==> SameLetter(d[|d| - 9 + i], IMPORTANT[i]))
    && var head := TrimEnd(d[..|d| - 9]); head != [] && head[|head| - 1] == '!'
  }

  function Suffix(d: string): string {
    if IsImportant(d) then "" else " !important"
  }

  function Mark(d: string): string {
    d + Suffix(d)
  }

  function Marked(pieces: seq<string>): seq<string> {
    if pieces == [] then []
    else
      var t := Trim(pieces[0]);
      (if t == "" then [] else [Mark(t)]) + Marked(pieces[1..])
  }

  function Joined(ds: seq<string>): string {
    if ds == [] then "" else if |ds| == 1 then ds[0] else ds[0] + ";" + Joined(ds[1..])
  }

  function Importantified(css: string): string {
    Joined(Marked(Pieces(Strip(false, css))))
  }

  // ---------------------------------------------------------------- the loop

  /** Where the piece ends when the scan stands inside a string opened by `q`. */
  function BreakQuoted(q: char, depth: nat, s: string): nat
    decreases |s|
  {
    if s == [] then 0
    else if s[0] == '\\' then (if |s| == 1 then 1 else 2 + BreakQuoted(q, depth, s[2..]))
    else if s[0] == q then 1 + Break(IsIdent(q), depth, s[1..])
    else 1 + BreakQuoted(q, depth, s[1..])
  }

  lemma BreakNil(ident: bool, depth: nat)
    ensures Break(ident, depth, []) == 0
  {
  }

  lemma {:induction false} BreakQuotedIsToken(q: char, depth: nat, s: string)
    requires s != []
    ensures var n := QuoteLen(q, s); BreakQuoted(q, depth, s) == n + Break(IsIdent(s[n - 1]), depth, s[n..])
    decreases |s|
  {
    hide Break, IsIdent;
    var n := QuoteLen(q, s);
    var k := if s[0] == '\\' then 2 else 1;
    if s[0] == q && k == 1 {
    } else if |s| <= k {
      assert s[n..] == [];
      BreakNil(IsIdent(s[n - 1]), depth);
    } else {
      BreakQuotedIsToken(q, depth, s[k..]);
      var m := QuoteLen(q, s[k..]);
      assert s[k..][m..] == s[n..] && s[k..][m - 1] == s[n - 1];
    }
  }

  /** Where the current piece ends, from the loop's state. */
  function BreakAt(css: string, i: nat, depth: nat, quote: string): nat
    requires |quote| <= 1
  {
    if i >= |css| then |css|
    else if quote == "" then i + Break(IdentBefore(css, i), depth, css[i..])
    else i + BreakQuoted(quote[0], depth, css[i..])
  }

  /** The pieces from `start` on, the first of which ends at `k`. */
  function PiecesFrom(css: string, start: nat, k: nat): seq<string>
    requires start <= |css|
  {
    if start <= k < |css| then [css[start..k]] + Pieces(css[k + 1..]) else [css[start..]]
  }

  lemma PiecesStart(css: string, start: nat)
    requires start <= |css| && !IdentBefore(css, start)
    ensures PiecesFrom(css, start, BreakAt(css, start, 0, "")) == Pieces(css[start..])
  {
    hide Break, Pieces, IdentBefore;
    var s := css[start..];
    var k := Break(false, 0, s);
    BreakNil(false, 0);
    PiecesWhole(s);
    if k < |s| { assert s[..k] == css[start..start + k] && s[k + 1..] == css[start + k + 1..]; }
  }

  lemma BreakStep(css: string, i: nat, depth: nat)
    requires i < |css| && !(css[i] == ';' && depth == 0)
    ensures var k := ScanLen(IdentBefore(css, i), css[i..]);
      BreakAt(css, i, depth, "") == BreakAt(css, i + k, NextDepth(css[i], depth), "")
  {
    hide ScanLen, Break, IsIdent, NextDepth;
    var s := css[i..];
    var k := ScanLen(IdentBefore(css, i), s);
    assert s[k..] == css[i + k..] && s[k - 1] == css[i + k - 1];
    BreakScans(IdentBefore(css, i), depth, s);
    BreakNil(IdentBefore(css, i + k), NextDepth(css[i], depth));
  }

  lemma BreakScans(ident: bool, depth: nat, s: string)
    requires s != [] && !(s[0] == ';' && depth == 0)
    ensures var k := ScanLen(ident, s);
      Break(ident, depth, s) == k + Break(IsIdent(s[k - 1]), NextDepth(s[0], depth), s[k..])
  {
    hide ScanLen, IsIdent, NextDepth;
  }

  /** Outside a string the piece ends where the scan of the rest of the text breaks. */
  lemma BreakHere(css: string, k: nat, depth: nat)
    requires k <= |css|
    ensures BreakAt(css, k, depth, "") == k + Break(IdentBefore(css, k), depth, css[k..])
  {
    hide Break, IdentBefore;
    if k == |css| {
      assert css[k..] == [];
      BreakNil(IdentBefore(css, k), depth);
    }
  }

  lemma BreakOpensQuote(css: string, i: nat, depth: nat)
    requires i < |css| && IsQuote(css[i])
    ensures BreakAt(css, i, depth, "") == BreakAt(css, i + 1, depth, [css[i]])
  {
    hide Break, BreakAt, QuoteLen, ScanLen, IsIdent;
    var c, t := css[i], css[i + 1..];
    var m := QuoteLen(c, t);
    assert css[i..][0] == c && css[i..][1..] == t;
    QuoteScan(IdentBefore(css, i), css[i..]);
    BreakStep(css, i, depth);
    QuoteEnd(css, i, depth);
  }

  /** From inside the string to behind it. */
  lemma QuoteEnd(css: string, i: nat, depth: nat)
    requires i < |css|
    ensures var m := QuoteLen(css[i], css[i + 1..]);
      BreakAt(css, i + 1, depth, [css[i]]) == BreakAt(css, i + 1 + m, depth, "")
  {
    hide Break, BreakQuoted, QuoteLen, IsIdent;
    var c, t := css[i], css[i + 1..];
    if t == [] {
      QuoteNil(c);
    } else {
      var m := QuoteLen(c, t);
      BreakQuotedIsToken(c, depth, t);
      assert t[m..] == css[i + 1 + m..] && t[m - 1] == css[i + m];
      BreakHere(css, i + 1 + m, depth);
    }
  }

  lemma QuoteScan(ident: bool, s: string)
    requires s != [] && IsQuote(s[0])
    ensures ScanLen(ident, s) == 1 + QuoteLen(s[0], s[1..])
  {
    hide QuoteLen, UrlLen;
  }

  lemma QuoteNil(q: char)
    ensures QuoteLen(q, []) == 0
  {
  }

  lemma BreakInQuote(css: string, i: nat, depth: nat, quote: string)
    requires i < |css| && |quote| == 1
    ensures BreakAt(css, i, depth, quote) ==
      if css[i] == '\\' then BreakAt(css, i + 2, depth, quote)
      else BreakAt(css, i + 1, depth, if css[i] == quote[0] then "" else quote)
  {
    hide Break;
    var s := css[i..];
    assert s[1..] == css[i + 1..];
    BreakNil(IsIdent(css[i]), depth);
    if i + 2 <= |css| { assert s[2..] == css[i + 2..]; }
  }

  lemma BreakAtSemicolon(css: string, i: nat)
    requires i < |css| && css[i] == ';'
    ensures BreakAt(css, i, 0, "") == i
  {
  }

  lemma OneCharScan(ident: bool, s: string)
    requires s != [] && !IsQuote(s[0]) && (s[0] == '(' || s[0] == ')' || s[0] == ';')
    ensures ScanLen(ident, s) == 1
  {
  }

  lemma OtherScan(ident: bool, s: string)
    requires s != [] && !IsQuote(s[0])
    ensures ScanLen(ident, s) == if UrlLen(ident, s) == 0 then 1 else UrlLen(ident, s)
  {
  }

  method Importantify(css: string) returns (out: string)
    ensures out == Importantified(css)
  {
    hide Break, BreakQuoted, BreakAt, PiecesFrom, Pieces, Strip, UrlLen, QuoteLen, IdentBefore, ScanLen;
    var text := StripComments(css);
    var decls: seq<string> := [];
    var start, depth, quote, i := 0, 0, "", 0;
    assert text[0..] == text;
    NoIdentAtStart(text);
    PiecesStart(text, 0);
    while i < |text|
      invariant start <= |text| && start <= i && |quote| <= 1 && depth >= 0
      invariant decls + PiecesFrom(text, start, BreakAt(text, i, depth, quote)) == Pieces(text)
    {
      var c := text[i];
      if quote != "" {
        BreakInQuote(text, i, depth, quote);
        if c == '\\' {
          i := i + 1;
        } else if [c] == quote {
          quote := "";
        }
      } else if c == '\'' || c == '"' {
        BreakOpensQuote(text, i, depth);
        quote := [c];
      } else if c == '(' {
        OneCharScan(IdentBefore(text, i), text[i..]);
        BreakStep(text, i, depth);
        depth := depth + 1;
      } else if c == ')' {
        OneCharScan(IdentBefore(text, i), text[i..]);
        BreakStep(text, i, depth);
        depth := if depth - 1 > 0 then depth - 1 else 0;
      } else if c == ';' && depth == 0 {
        BreakAtSemicolon(text, i);
        NextPiece(text, start, i, decls);
        decls := decls + [text[start..i]];
        start := i + 1;
      } else {
        var end := ScanUnquotedUrl(text, i);
        OtherScan(IdentBefore(text, i), text[i..]);
        BreakStep(text, i, depth);
        if end != -1 {
          i := end - 1;
        }
      }
      i := i + 1;
    }
    LastPiece(text, start, i, depth, quote);
    decls := decls + [text[start..]];
    out := Joined(Marked(decls));
  }

  lemma NoIdentAtStart(css: string)
    ensures !IdentBefore(css, 0)
  {
  }

  lemma NextPiece(css: string, start: nat, i: nat, decls: seq<string>)
    requires start <= i < |css| && css[i] == ';'
    ensures decls + PiecesFrom(css, start, i)
         == decls + [css[start..i]] + PiecesFrom(css, i + 1, BreakAt(css, i + 1, 0, ""))
  {
    PiecesStart(css, i + 1);
    hide Break, Pieces;
    assert PiecesFrom(css, start, i) == [css[start..i]] + Pieces(css[i + 1..]);
  }

  lemma LastPiece(css: string, start: nat, i: nat, depth: nat, quote: string)
    requires start <= |css| && i >= |css| && |quote| <= 1
    ensures PiecesFrom(css, start, BreakAt(css, i, depth, quote)) == [css[start..]]
  {
  }

  // ---------------------------------------------------------------- text without comments

  predicate NoComments(ident: bool, s: string)
    decreases |s|
  {
    s == [] || (KindOf(ident, s) != Comment
      && var n := TokenLen(ident, s); NoComments(IsIdent(s[n - 1]), s[n..]))
  }

  lemma {:induction false} NoCommentsStrip(ident: bool, s: string)
    requires NoComments(ident, s)
    ensures Strip(ident, s) == s
    decreases |s|
  {
    hide KindOf, TokenLen, IsIdent, Strip;
    if s == [] {
      StripNil(ident);
    } else {
      var n := TokenLen(ident, s);
      StripFirstPart(ident, s);
      NoCommentsStrip(IsIdent(s[n - 1]), s[n..]);
      assert s == s[..n] + s[n..];
    }
  }

  lemma {:induction false} StripNoComments(ident: bool, s: string)
    ensures NoComments(ident, Strip(ident, s))
    decreases |s|
  {
    hide TokenLen, KindOf, IsIdent;
    if s != [] {
      var n := TokenLen(ident, s);
      StripNoComments(IsIdent(s[n - 1]), s[n..]);
      StripFirstToken(ident, s);
      var o, tail := Strip(ident, s), Strip(IsIdent(s[n - 1]), s[n..]);
      var t := Blank(Token(KindOf(ident, s), s[..n]));
      assert o[|t.text|..] == tail;
      if tail == [] { NoCommentsNil(IsIdent(o[|t.text| - 1])); }
    } else {
      NoCommentsNil(ident);
    }
  }

  lemma NoCommentsNil(ident: bool)
    ensures NoComments(ident, [])
  {
  }

  // ---------------------------------------------------------------- changing what follows a piece

  /** Characters that are tokens by themselves whatever surrounds them. */
  predicate Bland(c: char) {
    !IsQuote(c) && c != '/' && c != 'u' && c != 'U' && c != '(' && c != ')' && c != ';'
  }

  predicate AllBland(z: string) {
    forall i :: 0 <= i < |z| ==> Bland(z[i])
  }

  predicate AllSpace(w: string) {
    forall i :: 0 <= i < |w| ==> IsSpace(w[i])
  }

  lemma SpaceIsBland(w: string)
    requires AllSpace(w)
    ensures AllBland(w)
  {
  }

  function IdentAfter(ident: bool, z: string): bool {
    if z == [] then ident else IsIdent(z[|z| - 1])
  }

  lemma BlandToken(ident: bool, s: string)
    requires s != [] && (Bland(s[0]) || s[0] == ';')
    ensures KindOf(ident, s) == Plain && TokenLen(ident, s) == 1 && ScanLen(ident, s) == 1
  {
  }

  /** Bland text is passed over. */
  lemma BlandStep(ident: bool, depth: nat, s: string)
    requires s != [] && Bland(s[0])
    ensures Break(ident, depth, s) == 1 + Break(IsIdent(s[0]), depth, s[1..])
    ensures NoComments(ident, s) == NoComments(IsIdent(s[0]), s[1..])
  {
    hide KindOf, TokenLen, IsIdent, Break, ScanLen, NoComments;
    BlandToken(ident, s);
    BreakScans(ident, depth, s);
    NoCommentsScans(ident, s);
  }

  lemma NoCommentsScans(ident: bool, s: string)
    requires s != [] && KindOf(ident, s) != Comment
    ensures var n := TokenLen(ident, s); NoComments(ident, s) == NoComments(IsIdent(s[n - 1]), s[n..])
  {
    hide KindOf, TokenLen, IsIdent;
  }

  lemma {:induction false} BlandRun(ident: bool, depth: nat, z: string, r: string)
    requires AllBland(z)
    ensures Break(ident, depth, z + r) == |z| + Break(IdentAfter(ident, z), depth, r)
    ensures NoComments(ident, z + r) == NoComments(IdentAfter(ident, z), r)
    decreases |z|
  {
    hide Break, NoComments, IsIdent;
    if z == [] {
      assert z + r == r;
    } else {
      BlandStep(ident, depth, z + r);
      assert (z + r)[0] == z[0] && (z + r)[1..] == z[1..] + r;
      BlandRun(IsIdent(z[0]), depth, z[1..], r);
    }
  }

  /** A semicolon resets the scan. */
  lemma SemicolonResets(ident: bool, depth: nat, x: string)
    ensures Break(ident, depth, ";" + x) == 0 <==> depth == 0
    ensures NoComments(ident, ";" + x) == NoComments(false, x)
  {
    var s := ";" + x;
    hide KindOf, TokenLen;
    BlandToken(ident, s);
    assert s[1..] == x;
  }

  /** What may follow a trimmed piece: nothing, white space or a semicolon. */
  predicate SafeTail(y: string) {
    y == [] || IsSpace(y[0]) || y[0] == ';'
  }

  predicate EndsDark(t: string) {
    t == [] || !IsSpace(t[|t| - 1])
  }

  lemma QuotedArgumentWithin(a: string, y: string, z: string)
    requires a != [] && EndsDark(a)
    ensures QuotedArgument(a + y) == QuotedArgument(a + z)
  {
    var k := SpaceLen(a);
    assert !IsSpace(a[|a| - 1]);
    SpaceLenIs(a + y, k);
    SpaceLenIs(a + z, k);
  }

  lemma OpensUrlWithin(t: string, y: string, z: string)
    requires t != [] && SafeTail(y) && SafeTail(z)
    ensures OpensUrl(t + y) == OpensUrl(t + z)
    ensures OpensUrl(t + y) ==> |t| >= 4
  {
    var s, r := t + y, t + z;
    assert forall i :: 0 <= i < |t| ==> s[i] == t[i] && r[i] == t[i];
    if |t| < 4 {
      assert y != [] ==> s[|t|] == y[0];
      assert z != [] ==> r[|t|] == z[0];
    }
  }

  lemma KindCases(ident: bool, s: string)
    requires s != []
    ensures KindOf(ident, s) == Quoted <==> IsQuote(s[0])
    ensures KindOf(ident, s) == Comment <==> s[0] == '/' && |s| > 1 && s[1] == '*'
    ensures KindOf(ident, s) == Url <==>
      !IsQuote(s[0]) && !(s[0] == '/' && |s| > 1 && s[1] == '*') && UrlLen(ident, s) > 0
  {
    hide UrlLen;
  }

  lemma UrlKeeps(ident: bool, t: string, y: string, z: string)
    requires t != [] && EndsDark(t) && SafeTail(y) && SafeTail(z)
    requires !QuotedArgument(y) && !QuotedArgument(z)
    ensures UrlLen(ident, t + y) > 0 <==> UrlLen(ident, t + z) > 0
  {
    hide UrlLen, OpensUrl, QuotedArgument, EndsDark, SafeTail;
    OpensUrlWithin(t, y, z);
    var s, r := t + y, t + z;
    UrlWhenOpen(ident, s);
    UrlWhenOpen(ident, r);
    if OpensUrl(s) {
      UrlArgument(t, y, z);
    }
  }

  lemma UrlArgument(t: string, y: string, z: string)
    requires |t| >= 4 && EndsDark(t) && !QuotedArgument(y) && !QuotedArgument(z)
    ensures QuotedArgument((t + y)[4..]) == QuotedArgument((t + z)[4..])
  {
    hide QuotedArgument;
    var a := t[4..];
    assert (t + y)[4..] == a + y && (t + z)[4..] == a + z;
    if a == [] {
      assert a + y == y && a + z == z;
    } else {
      QuotedArgumentWithin(a, y, z);
    }
  }

  /** What kind of token starts a piece does not depend on the safe tail that follows it. */
  lemma PlainKeeps(ident: bool, t: string, y: string, z: string)
    requires t != [] && EndsDark(t) && SafeTail(y) && SafeTail(z)
    requires !QuotedArgument(y) && !QuotedArgument(z)
    ensures KindOf(ident, t + y) == KindOf(ident, t + z)
  {
    hide KindOf, UrlLen, QuotedArgument;
    UrlKeeps(ident, t, y, z);
    var s, r := t + y, t + z;
    KindCases(ident, s);
    KindCases(ident, r);
    assert s[0] == t[0] && r[0] == t[0];
    if |t| > 1 {
      assert s[1] == t[1] && r[1] == t[1];
    } else {
      assert y != [] ==> s[1] == y[0];
      assert z != [] ==> r[1] == z[0];
    }
  }

  lemma UrlWhenOpen(ident: bool, s: string)
    ensures UrlLen(ident, s) > 0 <==> !ident && OpensUrl(s) && !QuotedArgument(s[4..])
  {
    hide OpensUrl, QuotedArgument;
  }

  lemma {:induction false} QuoteCloses(q: char, s: string)
    requires QuoteLen(q, s) < |s|
    ensures QuoteLen(q, s) > 0 && s[QuoteLen(q, s) - 1] == q
    decreases |s|
  {
    if s[0] == '\\' { QuoteCloses(q, s[2..]); } else if s[0] != q { QuoteCloses(q, s[1..]); }
  }

  lemma {:induction false} ParenCloses(s: string)
    requires ParenLen(s) < |s|
    ensures ParenLen(s) > 0 && s[ParenLen(s) - 1] == ')'
    decreases |s|
  {
    if s[0] == ')' {
    } else if s[0] == '\\' { ParenCloses(s[2..]); } else { ParenCloses(s[1..]); }
  }

  /** A string or url that does not run to the end of the text ends in its closing mark. */
  lemma TokenCloses(ident: bool, s: string)
    requires s != [] && KindOf(ident, s) in {Quoted, Url} && TokenLen(ident, s) < |s|
    ensures var c := s[TokenLen(ident, s) - 1]; IsQuote(c) || c == ')'
  {
    hide QuoteLen, ParenLen, SpaceLen;
    var n := TokenLen(ident, s);
    if KindOf(ident, s) == Quoted {
      QuoteCloses(s[0], s[1..]);
      assert s[1..][n - 2] == s[n - 1];
    } else {
      var a := s[4..];
      var b := a[SpaceLen(a)..];
      ParenCloses(b);
      assert b[ParenLen(b) - 1] == s[n - 1];
    }
  }

  lemma BreakFirst(ident: bool, depth: nat, s: string)
    requires s != [] && KindOf(ident, s) != Comment && Break(ident, depth, s) > 0
    ensures var n := TokenLen(ident, s);
      Break(ident, depth, s) == n + Break(IsIdent(s[n - 1]), NextDepth(s[0], depth), s[n..])
    ensures !(s[0] == ';' && depth == 0)
  {
    hide KindOf, TokenLen, IsIdent, NextDepth;
  }

  lemma BreakGoesOn(ident: bool, depth: nat, s: string)
    requires s != [] && KindOf(ident, s) != Comment && !(s[0] == ';' && depth == 0)
    ensures var n := TokenLen(ident, s);
      Break(ident, depth, s) == n + Break(IsIdent(s[n - 1]), NextDepth(s[0], depth), s[n..])
    ensures var n := TokenLen(ident, s); NoComments(ident, s) == NoComments(IsIdent(s[n - 1]), s[n..])
  {
    hide KindOf, TokenLen, IsIdent, NextDepth;
  }

  /** A token of `t` is the same whichever safe tail follows `t`, when it ends before the tail. */
  lemma SameToken(ident: bool, t: string, y: string, z: string)
    requires t != [] && EndsDark(t) && SafeTail(y) && SafeTail(z)
    requires !QuotedArgument(y) && !QuotedArgument(z)
    requires KindOf(ident, t + y) != Comment
    requires KindOf(ident, t + y) == Plain || TokenLen(ident, t + y) < |t + y|
    requires TokenLen(ident, t + y) <= |t|
    ensures KindOf(ident, t + z) == KindOf(ident, t + y)
    ensures TokenLen(ident, t + z) == TokenLen(ident, t + y)
  {
    PlainKeeps(ident, t, y, z);
    hide KindOf, UrlLen, QuoteLen, OpensUrl, QuotedArgument;
    if KindOf(ident, t + y) != Plain {
      var n := TokenLen(ident, t + y);
      assert (t + y)[..n] == t[..n] && (t + z)[..n] == t[..n];
      TokenPrefix(ident, t + y, t + z);
    }
  }

  lemma NotQuoted(w: string, x: string)
    requires AllSpace(w) && (x == [] || x[0] == ';')
    ensures !QuotedArgument(w + x) && SafeTail(w + x)
  {
    SpaceLenIs(w + x, |w|);
  }

  predicate IsTail(y: string) {
    y == [] || y[0] == ';'
  }

  /** The suffixes a trimmed piece can get. */
  lemma SuffixIsSafe(z: string, y: string)
    requires (z == "" || z == " !important") && IsTail(y)
    ensures AllBland(z) && SafeTail(z + y) && !QuotedArgument(z + y)
  {
    if z == "" {
      assert z + y == y;
      SpaceLenIs(y, 0);
    } else {
      SpaceLenIs(z + y, 1);
    }
  }

  lemma TailResets(ident: bool, y: string)
    requires IsTail(y)
    ensures Break(ident, 0, y) == 0
    ensures NoComments(ident, y) == NoComments(false, if y == [] then [] else y[1..])
  {
    if y != [] {
      assert y == ";" + y[1..];
      SemicolonResets(ident, 0, y[1..]);
    }
  }

  /** A token that does not reach past the bland text after `t` ends within `t`. */
  lemma TokenFits(ident: bool, t: string, z: string, x: string)
    requires t != [] && AllBland(z)
    requires var s := t + (z + x);
      KindOf(ident, s) != Comment
      && (KindOf(ident, s) == Plain || TokenLen(ident, s) < |s|) && TokenLen(ident, s) <= |t| + |z|
    ensures TokenLen(ident, t + (z + x)) <= |t|
  {
    hide UrlLen, QuoteLen, Bland;
    var s := t + (z + x);
    var n := TokenLen(ident, s);
    if KindOf(ident, s) != Plain {
      TokenCloses(ident, s);
      NotBland(s[n - 1]);
      forall i | |t| <= i < |t| + |z| ensures Bland(s[i]) {
        assert s[i] == z[i - |t|];
      }
    }
  }

  lemma NotBland(c: char)
    requires IsQuote(c) || c == ')'
    ensures !Bland(c)
  {
  }

  /** One token of a piece, whatever safe tail follows: the same token, and the scan goes on
      from the same state behind it. */
  lemma PieceStep(ident: bool, depth: nat, t: string, y: string, z: string)
    requires t != [] && EndsDark(t) && SafeTail(y) && SafeTail(z)
    requires !QuotedArgument(y) && !QuotedArgument(z)
    requires NoComments(ident, t + y) && Break(ident, depth, t + y) > 0
    requires TokenLen(ident, t + y) <= |t|
    requires KindOf(ident, t + y) == Plain || TokenLen(ident, t + y) < |t + y|
    ensures var n := TokenLen(ident, t + y);
      var after, deeper := IsIdent(t[n - 1]), NextDepth(t[0], depth);
      && Break(ident, depth, t + y) == n + Break(after, deeper, t[n..] + y)
      && Break(ident, depth, t + z) == n + Break(after, deeper, t[n..] + z)
      && NoComments(ident, t + z) == NoComments(after, t[n..] + z)
      && NoComments(after, t[n..] + y)
      && EndsDark(t[n..])
  {
    hide Break, NoComments, KindOf, TokenLen, QuotedArgument, IsIdent, NextDepth, SafeTail, IsSpace;
    var s, r := t + y, t + z;
    NoCommentsHead(ident, depth, s);
    BreakFirst(ident, depth, s);
    var n := TokenLen(ident, s);
    SameToken(ident, t, y, z);
    assert s[0] == t[0] && r[0] == t[0] && s[n - 1] == t[n - 1] && r[n - 1] == t[n - 1];
    assert s[n..] == t[n..] + y && r[n..] == t[n..] + z;
    BreakGoesOn(ident, depth, s);
    BreakGoesOn(ident, depth, r);
  }

  /** A piece that a semicolon ends keeps its extent when its trailing white space is replaced
      by a mark and another text follows. */
  lemma {:induction false} ClosedPiece(ident: bool, depth: nat, t: string, w: string, x: string, z: string, y: string)
    requires AllSpace(w) && EndsDark(t) && AllBland(z) && IsTail(y)
    requires SafeTail(z + y) && !QuotedArgument(z + y)
    requires var s := t + (w + (";" + x)); Break(ident, depth, s) == |t| + |w| && NoComments(ident, s)
    ensures Break(ident, depth, t + (z + y)) == |t| + |z|
    ensures NoComments(ident, t + (z + y)) == NoComments(false, if y == [] then [] else y[1..])
    decreases |t|
  {
    hide Break, NoComments, KindOf, TokenLen, QuotedArgument, IsIdent, NextDepth, Bland, IsSpace, SafeTail;
    var was, now := w + (";" + x), z + y;
    SpaceIsBland(w);
    if t == [] {
      assert t + was == was && t + now == now;
      BlandRun(ident, depth, w, ";" + x);
      SemicolonResets(IdentAfter(ident, w), depth, x);
      BlandRun(ident, depth, z, y);
      TailResets(IdentAfter(ident, z), y);
    } else {
      NotQuoted(w, ";" + x);
      NoCommentsHead(ident, depth, t + was);
      var n := TokenLen(ident, t + was);
      TokenFits(ident, t, w, ";" + x);
      PieceStep(ident, depth, t, was, now);
      ClosedPiece(IsIdent(t[n - 1]), NextDepth(t[0], depth), t[n..], w, x, z, y);
    }
  }

  lemma NoCommentsHead(ident: bool, depth: nat, s: string)
    requires s != [] && NoComments(ident, s)
    ensures KindOf(ident, s) != Comment
    ensures Break(ident, depth, s) > 0 ==> TokenLen(ident, s) <= Break(ident, depth, s)
  {
  }

  /** The last piece, which may end inside a string, a url or a parenthesis, stays one piece. */
  lemma {:induction false} LastPieceStays(ident: bool, depth: nat, t: string, w: string, z: string)
    requires AllSpace(w) && EndsDark(t) && AllBland(z) && SafeTail(z) && !QuotedArgument(z)
    requires var s := t + w; Break(ident, depth, s) == |s| && NoComments(ident, s)
    ensures Break(ident, depth, t + z) == |t + z| && NoComments(ident, t + z)
    decreases |t|
  {
    hide Break, NoComments, KindOf, TokenLen, QuotedArgument, IsIdent, NextDepth, Bland, IsSpace, SafeTail;
    SpaceIsBland(w);
    assert w + [] == w && z + [] == z;
    if t == [] {
      assert t + z == z + [];
      BlandToEnd(ident, depth, z);
    } else {
      NotQuoted(w, []);
      var s := t + w;
      NoCommentsHead(ident, depth, s);
      var n := TokenLen(ident, s);
      if KindOf(ident, s) == Plain || n < |s| {
        TokenFits(ident, t, w, []);
        PieceStep(ident, depth, t, w, z);
        LastPieceStays(IsIdent(t[n - 1]), NextDepth(t[0], depth), t[n..], w, z);
      } else {
        OpenEnd(ident, depth, t, w, z);
      }
    }
  }

  lemma BlandToEnd(ident: bool, depth: nat, z: string)
    requires AllBland(z)
    ensures Break(ident, depth, z) == |z| && NoComments(ident, z)
  {
    assert z + [] == z;
    BlandRun(ident, depth, z, []);
    BreakNil(IdentAfter(ident, z), depth);
    NoCommentsNil(IdentAfter(ident, z));
  }

  /** A string or url that runs to the end of the text takes in the mark, or is closed just
      before it. */
  lemma OpenEnd(ident: bool, depth: nat, t: string, w: string, z: string)
    requires t != [] && AllSpace(w) && EndsDark(t) && AllBland(z) && SafeTail(z) && SafeTail(w)
    requires !QuotedArgument(z) && !QuotedArgument(w)
    requires KindOf(ident, t + w) in {Quoted, Url} && TokenLen(ident, t + w) == |t + w|
    ensures Break(ident, depth, t + z) == |t + z| && NoComments(ident, t + z)
  {
    hide Break, NoComments, KindOf, TokenLen, QuotedArgument, IsIdent, Bland, IsSpace, SafeTail;
    var r := t + z;
    PlainKeeps(ident, t, w, z);
    NotSemicolon(ident, r);
    BreakGoesOn(ident, depth, r);
    var m := TokenLen(ident, r);
    if m < |r| {
      assert z + [] == z;
      TokenFits(ident, t, z, []);
      SameToken(ident, t, z, w);
      assert r[m..] == z;
      BlandToEnd(IsIdent(r[m - 1]), NextDepth(r[0], depth), z);
    } else {
      assert r[m..] == [];
      BreakNil(IsIdent(r[m - 1]), NextDepth(r[0], depth));
      NoCommentsNil(IsIdent(r[m - 1]));
    }
  }

  lemma NotSemicolon(ident: bool, s: string)
    requires s != [] && KindOf(ident, s) in {Quoted, Url}
    ensures s[0] != ';'
  {
  }

  // ---------------------------------------------------------------- the pieces of the result

  lemma {:induction false} TrimEndParts(s: string) returns (w: string)
    ensures s == TrimEnd(s) + w && AllSpace(w) && EndsDark(TrimEnd(s))
  {
    if s != [] && IsSpace(s[|s| - 1]) {
      w := TrimEndParts(s[..|s| - 1]);
      w := w + [s[|s| - 1]];
    } else {
      w := [];
    }
  }

  lemma TrimParts(p: string) returns (lead: string, w: string)
    ensures p == lead + (Trim(p) + w) && AllSpace(lead) && AllSpace(w) && EndsDark(Trim(p))
    ensures Trim(p) != [] ==> !IsSpace(Trim(p)[0])
  {
    hide IsSpace;
    var n := SpaceLen(p);
    lead := p[..n];
    w := TrimEndParts(p[n..]);
    assert p == lead + p[n..];
    if Trim(p) != [] { assert p[n..][0] == p[n] && Trim(p)[0] == p[n..][0]; }
  }

  lemma LeadSkipped(lead: string, r: string)
    requires AllSpace(lead)
    ensures Break(false, 0, lead + r) == |lead| + Break(false, 0, r)
    ensures NoComments(false, lead + r) == NoComments(false, r)
  {
    SpaceIsBland(lead);
    BlandRun(false, 0, lead, r);
    if lead != [] { assert IsSpace(lead[|lead| - 1]); }
  }

  lemma PiecesWhole(s: string)
    ensures Break(false, 0, s) == |s| ==> Pieces(s) == [s]
    ensures Break(false, 0, s) < |s| ==>
      Pieces(s) == [s[..Break(false, 0, s)]] + Pieces(s[Break(false, 0, s) + 1..])
  {
    hide Break;
  }

  /** A trimmed, non-empty, marked declaration: what `importantify` joins. */
  ghost predicate Settled(d: string) {
    d != "" && Trim(d) == d && Mark(d) == d
  }

  lemma {:induction false} TrimEndDark(s: string)
    requires EndsDark(s)
    ensures TrimEnd(s) == s
  {
  }

  lemma SuffixIsImportant(t: string)
    ensures IsImportant(t + " !important")
  {
    var d := t + " !important";
    var head := t + " !";
    assert d[..|d| - 9] == head && d == head + IMPORTANT;
    assert head[|head| - 1] == '!';
    TrimEndDark(head);
    forall i | 0 <= i < 9 ensures SameLetter(d[|d| - 9 + i], IMPORTANT[i]) {
      assert d[|head| + i] == IMPORTANT[i];
    }
  }

  lemma MarkSettles(t: string)
    requires t != "" && EndsDark(t) && !IsSpace(t[0])
    ensures Settled(Mark(t))
  {
    hide IsImportant;
    var d := Mark(t);
    assert d[0] == t[0];
    if IsImportant(t) { assert d == t; } else { SuffixIsImportant(t); }
    assert d + "" == d;
    DarkIsTrimmed(d);
  }

  lemma DarkIsTrimmed(d: string)
    requires d != "" && EndsDark(d) && !IsSpace(d[0])
    ensures Trim(d) == d
  {
    TrimEndDark(d);
    SpaceLenIs(d, 0);
    assert d[0..] == d;
  }

  /** Text that is lead, trimmed piece and trailing space, up to a semicolon. */
  lemma ClosedPieceMarked(p: string, x: string, y: string)
    requires var s := p + ";" + x; Break(false, 0, s) == |p| && NoComments(false, s)
    requires IsTail(y) && Trim(p) != ""
    ensures var d := Mark(Trim(p));
      && Settled(d) && Break(false, 0, d + y) == |d|
      && NoComments(false, d + y) == NoComments(false, if y == [] then [] else y[1..])
  {
    hide Break, NoComments, Trim, IsSpace, QuotedArgument, SafeTail, IsImportant, Bland;
    var t := Trim(p);
    var lead, w := TrimParts(p);
    var z := Suffix(t);
    assert p + ";" + x == lead + (t + (w + (";" + x)));
    LeadSkipped(lead, t + (w + (";" + x)));
    SuffixIsSafe(z, y);
    ClosedPiece(false, 0, t, w, x, z, y);
    assert t + (z + y) == (t + z) + y;
    MarkSettles(t);
  }

  lemma RestHasNoComments(p: string, x: string)
    requires var s := p + ";" + x; Break(false, 0, s) == |p| && NoComments(false, s)
    ensures NoComments(false, x)
  {
    hide Break, NoComments, Trim, IsSpace, QuotedArgument, SafeTail, Bland;
    var t := Trim(p);
    var lead, w := TrimParts(p);
    assert p + ";" + x == lead + (t + (w + (";" + x)));
    LeadSkipped(lead, t + (w + (";" + x)));
    SpaceIsBland(w);
    NotQuoted(w, ";" + x);
    ClosedPiece(false, 0, t, w, x, w, ";" + x);
    assert (";" + x)[1..] == x;
  }

  lemma LastPieceMarked(p: string)
    requires Break(false, 0, p) == |p| && NoComments(false, p) && Trim(p) != ""
    ensures var d := Mark(Trim(p)); Settled(d) && Break(false, 0, d) == |d| && NoComments(false, d)
  {
    hide Break, NoComments, Trim, IsSpace, QuotedArgument, SafeTail, IsImportant, Bland;
    var t := Trim(p);
    var lead, w := TrimParts(p);
    var z := Suffix(t);
    LeadSkipped(lead, t + w);
    SuffixIsSafe(z, "");
    assert z + "" == z;
    LastPieceStays(false, 0, t, w, z);
    MarkSettles(t);
  }

  ghost predicate AllSettled(ds: seq<string>) {
    forall i :: 0 <= i < |ds| ==> Settled(ds[i])
  }

  /** Splitting the joined declarations gives the declarations back. */
  lemma {:induction false} ResultPieces(s: string)
    requires NoComments(false, s)
    ensures var ds := Marked(Pieces(s));
      AllSettled(ds) && NoComments(false, Joined(ds)) && (ds != [] ==> Pieces(Joined(ds)) == ds)
    decreases |s|
  {
    hide Break, NoComments, Trim, Mark, Pieces;
    PiecesWhole(s);
    NoCommentsNil(false);
    var k := Break(false, 0, s);
    if k == |s| {
      MarkedOne(s);
      if Trim(s) != "" {
        LastPieceMarked(s);
        PiecesWhole(Mark(Trim(s)));
      }
    } else {
      var p, x := s[..k], s[k + 1..];
      assert s == p + ";" + x;
      RestHasNoComments(p, x);
      ResultPieces(x);
      var tail := Marked(Pieces(x));
      MarkedMore(p, Pieces(x));
      if Trim(p) != "" {
        var d := Mark(Trim(p));
        var y := if tail == [] then "" else ";" + Joined(tail);
        ClosedPieceMarked(p, x, y);
        JoinStep(d, tail, y);
        assert Marked(Pieces(s)) == [d] + tail;
      } else {
        assert Marked(Pieces(s)) == tail;
      }
    }
  }

  lemma JoinStep(d: string, tail: seq<string>, y: string)
    requires y == if tail == [] then "" else ";" + Joined(tail)
    requires d != "" && Break(false, 0, d + y) == |d|
    requires tail != [] ==> Pieces(Joined(tail)) == tail
    ensures Joined([d] + tail) == d + y && Pieces(d + y) == [d] + tail
    ensures y != "" ==> y[1..] == Joined(tail)
  {
    hide Break, Pieces;
    assert ([d] + tail)[1..] == tail;
    PiecesWhole(d + y);
    if tail == [] {
      assert d + y == d;
    } else {
      assert (d + y)[..|d|] == d && (d + y)[|d| + 1..] == Joined(tail);
    }
  }

  lemma MarkedOne(p: string)
    ensures Marked([p]) == if Trim(p) == "" then [] else [Mark(Trim(p))]
  {
    hide Trim, Mark;
    assert [p][1..] == [];
  }

  lemma MarkedMore(p: string, ps: seq<string>)
    ensures Marked([p] + ps) == (if Trim(p) == "" then [] else [Mark(Trim(p))]) + Marked(ps)
  {
    hide Trim, Mark;
    assert ([p] + ps)[1..] == ps;
  }

  lemma {:induction false} MarkedSettled(ds: seq<string>)
    requires AllSettled(ds)
    ensures Marked(ds) == ds
  {
    hide Trim, Mark;
    if ds != [] {
      assert Settled(ds[0]);
      MarkedSettled(ds[1..]);
    }
  }

  /** What the result is made of: exactly the non-blank declarations of the stripped text, in
      order, each trimmed and marked. */
  lemma ImportantifyDeclarations(css: string)
    ensures var ds := Marked(Pieces(Strip(false, css)));
      && Strip(false, Importantified(css)) == Importantified(css)
      && Marked(Pieces(Importantified(css))) == ds
      && forall i :: 0 <= i < |ds| ==> IsImportant(ds[i])
  {
    hide Break, Trim, Pieces, IsImportant;
    var s := Strip(false, css);
    StripNoComments(false, css);
    ResultPieces(s);
    var ds := Marked(Pieces(s));
    NoCommentsStrip(false, Joined(ds));
    MarkedSettled(ds);
    forall i | 0 <= i < |ds| ensures IsImportant(ds[i]) {
      assert Settled(ds[i]);
      SettledIsImportant(ds[i]);
    }
    if ds == [] {
      NothingLeft();
    }
  }

  lemma SettledIsImportant(d: string)
    requires Mark(d) == d
    ensures IsImportant(d)
  {
    hide IsImportant;
    assert |Mark(d)| == |d| + |Suffix(d)|;
  }

  lemma NothingLeft()
    ensures Marked(Pieces("")) == []
  {
    BreakNil(false, 0);
    assert Pieces("") == [""];
    MarkedOne("");
  }

  lemma ImportantifyIdempotent(css: string)
    ensures Importantified(Importantified(css)) == Importantified(css)
  {
    ImportantifyDeclarations(css);
  }
}
