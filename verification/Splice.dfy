/** Splicing the generated block into the package-map page (cmd/arch-docs/render.go,
  `splice`). */
module Splice {

  const BEGIN_NAME := "<!-- BEGIN GENERATED: package-map — "
  const BEGIN_ADVICE := "`make arch-docs`. DO NOT EDIT BY HAND. -->"
  const BEGIN := BEGIN_NAME + BEGIN_ADVICE
  const END := "<!-- END GENERATED: package-map -->"
  const HEADING := "\n## "

  datatype Result = Ok(text: string) | Malformed | NoAnchor

  // ---------------------------------------------------------------- searching

  predicate At(s: string, sub: string, i: int) {
    0 <= i && i + |sub| <= |s| && s[i..i + |sub|] == sub
  }

  /** The first occurrence from `from` on, or -1. */
  function IndexFrom(s: string, sub: string, from: nat): (i: int)
    ensures i >= 0 ==> i >= from && At(s, sub, i)
    ensures i < 0 ==> i == -1
    ensures forall j :: from <= j && (i < 0 || j < i) ==> !At(s, sub, j)
    decreases |s| - from
  {
    if from + |sub| > |s| then -1
    else if s[from..from + |sub|] == sub then from
    else IndexFrom(s, sub, from + 1)
  }

  function Index(s: string, sub: string): (i: int)
    ensures i >= 0 ==> At(s, sub, i)
    ensures i < 0 ==> i == -1
    ensures forall j :: 0 <= j && (i < 0 || j < i) ==> !At(s, sub, j)
  {
    IndexFrom(s, sub, 0)
  }

  /** The first occurrence is the one with none before it. */
  lemma IndexIs(s: string, sub: string, i: nat)
    requires At(s, sub, i) && forall j :: 0 <= j < i ==> !At(s, sub, j)
    ensures Index(s, sub) == i
  {
  }

  function TrimNewlines(s: string): (t: string)
    ensures t <= s && forall i :: |t| <= i < |s| ==> s[i] == '\n'
    ensures t != [] ==> t[|t| - 1] != '\n'
  {
    if s != [] && s[|s| - 1] == '\n' then TrimNewlines(s[..|s| - 1]) else s
  }

  // ---------------------------------------------------------------- splice

  function Spliced(doc: string, block: string, anchor: string): Result {
    var start, end := Index(doc, BEGIN), Index(doc, END);
    if start >= 0 && end > start then Ok(doc[..start] + block + doc[end + |END|..])
    else if start >= 0 || end >= 0 then Malformed
    else
      var idx := Index(doc, anchor);
      if idx < 0 then NoAnchor
      else
        var next := Index(doc[idx + |anchor|..], HEADING);
        if next < 0 then Ok(TrimNewlines(doc) + "\n\n" + block + "\n")
        else
          var at := idx + |anchor| + next;
          Ok(TrimNewlines(doc[..at]) + "\n\n" + block + "\n" + doc[at..])
  }

  /** A block the generator writes: between its markers, the end marker only at its very end. */
  ghost predicate WellMarked(block: string) {
    && |block| >= |BEGIN| + |END| && block[..|BEGIN|] == BEGIN
    && Index(block, END) == |block| - |END|
  }

  lemma Markers()
    ensures |BEGIN| >= |END| > 0
    ensures forall i :: 0 <= i < |BEGIN| ==> BEGIN[i] != '\n'
    ensures forall i :: 0 <= i < |END| ==> END[i] != '\n'
    ensures BEGIN[5] != END[5]
  {
    assert forall i :: 0 <= i < |BEGIN_NAME| ==> BEGIN_NAME[i] != '\n';
    assert forall i :: 0 <= i < |BEGIN_ADVICE| ==> BEGIN_ADVICE[i] != '\n';
    assert BEGIN[5] == BEGIN_NAME[5];
  }

  /** An occurrence that lies inside a part is an occurrence in the part. */
  lemma AtWithin(s: string, sub: string, lo: nat, hi: nat, i: nat)
    requires lo <= i && i + |sub| <= hi <= |s|
    ensures At(s, sub, i) <==> At(s[lo..hi], sub, i - lo)
  {
    var a, b := s[lo..hi][i - lo..i - lo + |sub|], s[i..i + |sub|];
    assert |a| == |b| && forall k :: 0 <= k < |a| ==> a[k] == b[k];
  }

  lemma AtChar(s: string, sub: string, i: nat, k: nat)
    requires At(s, sub, i) && k < |sub|
    ensures s[i + k] == sub[k]
  {
    assert s[i..i + |sub|][k] == s[i + k];
  }

  /** Where the markers of a text are that holds one marked block: behind a prefix that has none,
      even together with the start of the block. */
  lemma MarkersFound(prefix: string, block: string, suffix: string)
    requires WellMarked(block)
    requires forall j :: 0 <= j < |prefix| ==> !At(prefix + BEGIN, BEGIN, j) && !At(prefix + BEGIN, END, j)
    ensures var text := prefix + block + suffix;
      Index(text, BEGIN) == |prefix| && Index(text, END) == |prefix| + |block| - |END|
  {
    hide IndexFrom;
    Markers();
    var text, n := prefix + block + suffix, |prefix|;
    BeginFound(prefix, block, suffix);
    var e := n + |block| - |END|;
    BlockAt(prefix, block, suffix, END, |block| - |END|);
    forall j | n <= j < e ensures !At(text, END, j) {
      BlockAt(prefix, block, suffix, END, j - n);
    }
    IndexIs(text, END, e);
  }

  lemma BlockAt(prefix: string, block: string, suffix: string, sub: string, j: nat)
    requires j + |sub| <= |block|
    ensures At(prefix + block + suffix, sub, |prefix| + j) <==> At(block, sub, j)
  {
    var text, n := prefix + block + suffix, |prefix|;
    assert text[n..n + |block|] == block;
    AtWithin(text, sub, n, n + |block|, n + j);
  }

  lemma BeginFound(prefix: string, block: string, suffix: string)
    requires |block| >= |BEGIN| && block[..|BEGIN|] == BEGIN
    requires forall j :: 0 <= j < |prefix| ==> !At(prefix + BEGIN, BEGIN, j) && !At(prefix + BEGIN, END, j)
    ensures var text := prefix + block + suffix;
      Index(text, BEGIN) == |prefix| && forall j :: 0 <= j < |prefix| ==> !At(text, END, j)
  {
    hide IndexFrom;
    Markers();
    var text, n := prefix + block + suffix, |prefix|;
    assert text[0..n + |BEGIN|] == prefix + BEGIN;
    BlockAt(prefix, block, suffix, BEGIN, 0);
    forall j | 0 <= j < n ensures !At(text, BEGIN, j) && !At(text, END, j) {
      AtWithin(text, BEGIN, 0, n + |BEGIN|, j);
      AtWithin(text, END, 0, n + |BEGIN|, j);
    }
    IndexIs(text, BEGIN, n);
  }

  /** Splicing over a text that holds one marked block replaces exactly that block. */
  lemma ReplaceBlock(prefix: string, block: string, suffix: string, other: string, anchor: string)
    requires WellMarked(block)
    requires forall j :: 0 <= j < |prefix| ==> !At(prefix + BEGIN, BEGIN, j) && !At(prefix + BEGIN, END, j)
    ensures Spliced(prefix + block + suffix, other, anchor) == Ok(prefix + other + suffix)
  {
    hide Index, WellMarked;
    MarkersFound(prefix, block, suffix);
    BlockLength(block);
    var text := prefix + block + suffix;
    assert text[..|prefix|] == prefix && text[|prefix| + |block|..] == suffix;
  }

  lemma BlockLength(block: string)
    requires WellMarked(block)
    ensures |block| > |END|
  {
    Markers();
  }

  // ---------------------------------------------------------------- prose and order

  /** How a text falls apart around the block: what `splice` puts before and behind it. */
  datatype Frame = Frame(prefix: string, suffix: string)

  /** Before and behind the block, when the page is accepted. */
  function FrameOf(doc: string, anchor: string): Frame {
    var start, end := Index(doc, BEGIN), Index(doc, END);
    if start >= 0 && end > start then Frame(doc[..start], doc[end + |END|..])
    else
      var idx := Index(doc, anchor);
      var next := if idx < 0 then -1 else Index(doc[idx + |anchor|..], HEADING);
      if next < 0 then Frame(TrimNewlines(doc) + "\n\n", "\n")
      else
        var at := idx + |anchor| + next;
        Frame(TrimNewlines(doc[..at]) + "\n\n", "\n" + doc[at..])
  }

  lemma SplicedFrame(doc: string, block: string, anchor: string)
    requires Spliced(doc, block, anchor).Ok?
    ensures var f := FrameOf(doc, anchor); Spliced(doc, block, anchor) == Ok(f.prefix + block + f.suffix)
  {
    hide Index;
  }

  /** A marker cannot straddle a line break. */
  lemma NoMarkerAcross(a: string, sub: string, j: nat)
    requires sub in {BEGIN, END} && j < |a| + 2
    requires forall i :: 0 <= i ==> !At(a, sub, i)
    ensures !At(a + "\n\n" + BEGIN, sub, j)
  {
    Markers();
    var s := a + "\n\n" + BEGIN;
    if At(s, sub, j) {
      assert s[0..|a|] == a;
      if j + |sub| <= |a| {
        AtWithin(s, sub, 0, |a|, j);
      } else {
        var k := if j <= |a| then |a| - j else 0;
        AtChar(s, sub, j, k);
      }
    }
  }

  /** No marker lies before the block the frame surrounds. */
  lemma FrameIsClear(doc: string, block: string, anchor: string, j: nat)
    requires Spliced(doc, block, anchor).Ok? && j < |FrameOf(doc, anchor).prefix|
    ensures var p := FrameOf(doc, anchor).prefix; !At(p + BEGIN, BEGIN, j) && !At(p + BEGIN, END, j)
  {
    hide IndexFrom;
    if Index(doc, BEGIN) >= 0 {
      ReplacingIsClear(doc, j);
    } else {
      ClearPrefix(doc, anchor);
      InsertingIsClear(doc, FrameOf(doc, anchor).prefix, j);
    }
  }

  lemma ReplacingIsClear(doc: string, j: nat)
    requires 0 <= Index(doc, BEGIN) < Index(doc, END) && j < Index(doc, BEGIN)
    ensures var p := doc[..Index(doc, BEGIN)]; !At(p + BEGIN, BEGIN, j) && !At(p + BEGIN, END, j)
  {
    hide IndexFrom;
    Markers();
    var start := Index(doc, BEGIN);
    var n := start + |BEGIN|;
    assert doc[start..n] == BEGIN && !At(doc, BEGIN, j) && !At(doc, END, j);
    StaysClear(doc, start, n, BEGIN, j);
    StaysClear(doc, start, n, END, j);
  }

  lemma StaysClear(doc: string, start: nat, n: nat, sub: string, j: nat)
    requires start <= n <= |doc| && j < start && |sub| <= n - start && !At(doc, sub, j)
    ensures !At(doc[..start] + doc[start..n], sub, j)
  {
    assert doc[..start] + doc[start..n] == doc[0..n];
    AtWithin(doc, sub, 0, n, j);
  }

  lemma InsertingIsClear(doc: string, p: string, j: nat)
    requires Index(doc, BEGIN) < 0 && Index(doc, END) < 0
    requires 2 <= |p| && |p| - 2 <= |doc| && p == doc[0..|p| - 2] + "\n\n" && j < |p|
    ensures !At(p + BEGIN, BEGIN, j) && !At(p + BEGIN, END, j)
  {
    hide IndexFrom;
    var a := doc[0..|p| - 2];
    NotInPart(doc, BEGIN, |a|);
    NotInPart(doc, END, |a|);
    hide Index, At;
    NoMarkerAcross(a, BEGIN, j);
    NoMarkerAcross(a, END, j);
  }

  lemma NotInPart(doc: string, sub: string, n: nat)
    requires Index(doc, sub) < 0 && n <= |doc|
    ensures forall i :: 0 <= i ==> !At(doc[0..n], sub, i)
  {
    hide IndexFrom;
    forall i | 0 <= i ensures !At(doc[0..n], sub, i) {
      if i + |sub| <= n { AtWithin(doc, sub, 0, n, i); }
    }
  }

  /** On a first insert the text before the block is a start of the page and a blank line. */
  lemma ClearPrefix(doc: string, anchor: string)
    requires Index(doc, BEGIN) < 0
    ensures var p := FrameOf(doc, anchor).prefix;
      |p| >= 2 && |p| - 2 <= |doc| && p[..|p| - 2] == doc[0..|p| - 2] && p == p[..|p| - 2] + "\n\n"
  {
    hide Index, IndexFrom;
  }

  /** Last writer wins: splicing one marked block and then another is splicing the other. */
  lemma LastWriterWins(doc: string, first: string, second: string, anchor: string)
    requires WellMarked(first) && Spliced(doc, first, anchor).Ok?
    ensures Spliced(Spliced(doc, first, anchor).text, second, anchor) == Spliced(doc, second, anchor)
  {
    hide Index, FrameOf, WellMarked;
    SplicedFrame(doc, first, anchor);
    SplicedOk(doc, first, second, anchor);
    SplicedFrame(doc, second, anchor);
    var f := FrameOf(doc, anchor);
    forall j | 0 <= j < |f.prefix| ensures !At(f.prefix + BEGIN, BEGIN, j) && !At(f.prefix + BEGIN, END, j) {
      FrameIsClear(doc, first, anchor, j);
    }
    hide Spliced;
    ReplaceBlock(f.prefix, first, f.suffix, second, anchor);
  }

  /** Whether a page is accepted does not depend on the block. */
  lemma SplicedOk(doc: string, first: string, second: string, anchor: string)
    ensures Spliced(doc, first, anchor).Ok? == Spliced(doc, second, anchor).Ok?
  {
    hide Index;
  }

  /** Regenerating a page changes nothing the second time. */
  lemma SpliceIdempotent(doc: string, block: string, anchor: string)
    requires WellMarked(block) && Spliced(doc, block, anchor).Ok?
    ensures Spliced(Spliced(doc, block, anchor).text, block, anchor) == Spliced(doc, block, anchor)
  {
    hide Spliced, WellMarked;
    LastWriterWins(doc, block, block, anchor);
  }

  /** With a block present, everything outside it survives. */
  lemma ProseSurvivesReplacing(doc: string, block: string, anchor: string) returns (before: string, cut: string, after: string)
    requires Spliced(doc, block, anchor).Ok? && Index(doc, BEGIN) >= 0
    ensures doc == before + cut + after && Spliced(doc, block, anchor).text == before + block + after
    ensures |before| == Index(doc, BEGIN) && |before + cut| == Index(doc, END) + |END|
  {
    hide IndexFrom;
    var start, end := Index(doc, BEGIN), Index(doc, END);
    before, cut, after := doc[..start], doc[start..end + |END|], doc[end + |END|..];
  }

  /** Without one, everything but the blank lines where the block goes in. */
  lemma ProseSurvivesInserting(doc: string, block: string, anchor: string) returns (before: string, cut: string, after: string)
    requires Spliced(doc, block, anchor).Ok? && Index(doc, BEGIN) < 0
    ensures doc == before + cut + after && forall i :: 0 <= i < |cut| ==> cut[i] == '\n'
    ensures Spliced(doc, block, anchor).text == before + "\n\n" + block + "\n" + after
    ensures var behind, at := Index(doc, anchor) + |anchor|, |before + cut|;
      && Index(doc, anchor) >= 0 && behind <= at
      && (at == |doc| || At(doc, "\n## ", at))
      && forall j :: behind <= j < at ==> !At(doc, "\n## ", j)
  {
    hide Index, IndexFrom, Spliced, At, TrimNewlines;
    AnchorFound(doc, block, anchor);
    var behind := Index(doc, anchor) + |anchor|;
    var next := Index(doc[behind..], HEADING);
    var at := if next < 0 then |doc| else behind + next;
    NextHeading(doc, behind, next, at);
    before := TrimNewlines(doc[..at]);
    cut, after := doc[..at][|before|..], doc[at..];
    assert before + cut == doc[..at] && doc[..at] + after == doc;
    InsertedAt(doc, block, anchor, at);
  }

  lemma AnchorFound(doc: string, block: string, anchor: string)
    requires Spliced(doc, block, anchor).Ok? && Index(doc, BEGIN) < 0
    ensures 0 <= Index(doc, anchor) <= |doc| - |anchor|
  {
    hide IndexFrom;
  }

  /** The heading found in the rest of the page is the next one of the page. */
  lemma NextHeading(doc: string, behind: nat, next: int, at: nat)
    requires behind <= |doc| && next == Index(doc[behind..], HEADING)
    requires at == if next < 0 then |doc| else behind + next
    ensures at <= |doc| && (next >= 0 ==> At(doc, HEADING, at))
    ensures forall j :: behind <= j < at ==> !At(doc, HEADING, j)
  {
    hide IndexFrom;
    assert doc[behind..] == doc[behind..|doc|];
    if next >= 0 { AtWithin(doc, HEADING, behind, |doc|, at); }
    forall j | behind <= j < at ensures !At(doc, HEADING, j) {
      if j + |HEADING| <= |doc| { AtWithin(doc, HEADING, behind, |doc|, j); }
    }
  }

  /** Where the first insert happens: before the next heading, or at the end. */
  lemma InsertedAt(doc: string, block: string, anchor: string, at: nat)
    requires Spliced(doc, block, anchor).Ok? && Index(doc, BEGIN) < 0 && at <= |doc|
    requires 0 <= Index(doc, anchor) <= |doc| - |anchor|
    requires var behind := Index(doc, anchor) + |anchor|;
      var next := Index(doc[behind..], HEADING);
      at == if next < 0 then |doc| else behind + next
    ensures Spliced(doc, block, anchor).text == TrimNewlines(doc[..at]) + "\n\n" + block + "\n" + doc[at..]
  {
    hide Index, TrimNewlines;
    if at == |doc| {
      var text := TrimNewlines(doc) + "\n\n" + block + "\n";
      assert doc[..at] == doc && doc[at..] == "" && text + "" == text;
    }
  }

  /** A page with half a marker pair, or with the end marker first, is always refused, and only
      such a page is refused as malformed; the anchor is missed only on a page without markers. */
  lemma HalfPairRefused(doc: string, block: string, anchor: string)
    ensures var start, end := Index(doc, BEGIN), Index(doc, END);
      Spliced(doc, block, anchor).Malformed? <==>
        (start >= 0 && end < 0) || (start < 0 && end >= 0) || (start >= 0 && 0 <= end < start)
    ensures Spliced(doc, block, anchor).NoAnchor? <==>
      forall j :: 0 <= j ==> !At(doc, BEGIN, j) && !At(doc, END, j) && !At(doc, anchor, j)
  {
    hide Index;
    Markers();
    var start, end := Index(doc, BEGIN), Index(doc, END);
    if start >= 0 && end == start {
      AtChar(doc, BEGIN, start, 5);
      AtChar(doc, END, end, 5);
    }
  }
}
