/** Merging Wikidata's dated call signs into an FCC history (cmd/station-data/main.go,
  `mergeWikidata`). */
module Merge {
  import opened Spans
  import opened Sorting

  datatype WikidataRow = WikidataRow(sign: string, from: Date, to: Date)

  function ByDates(): (WikidataRow, WikidataRow) -> bool {
    (x: WikidataRow, y: WikidataRow) => x.from < y.from || (x.from == y.from && x.to <= y.to)
  }

  function ByStart(): (CallSign, CallSign) -> bool {
    (x: CallSign, y: CallSign) => x.from <= y.from
  }

  function AsSpan(row: WikidataRow, norm: string -> string): CallSign {
    CallSign(norm(row.sign), row.from, row.to)
  }

  function AsSpans(rows: seq<WikidataRow>, norm: string -> string): seq<CallSign> {
    seq(|rows|, i requires 0 <= i < |rows| => AsSpan(rows[i], norm))
  }

  /** A row of another sign that ended by the time the first FCC span does. */
  predicate Precedes(row: WikidataRow, first: CallSign, norm: string -> string) {
    norm(row.sign) != "" && norm(row.sign) != first.sign
    && row.to != OPEN && (first.to == OPEN || row.to <= first.to)
  }

  /** A row that dates the start of the first FCC sign. */
  predicate DatesStart(row: WikidataRow, first: CallSign, norm: string -> string) {
    norm(row.sign) != "" && norm(row.sign) == first.sign
    && row.from != OPEN && (first.to == OPEN || row.from < first.to)
  }

  datatype Prelude = Prelude(before: seq<CallSign>, start: Date)

  function Scan(rows: seq<WikidataRow>, first: CallSign, norm: string -> string): Prelude {
    if rows == [] then Prelude([], OPEN)
    else
      var row := rows[|rows| - 1];
      var p := Scan(rows[..|rows| - 1], first, norm);
      if Precedes(row, first, norm)
      then Prelude(p.before + [AsSpan(row, norm)], if row.to > p.start then row.to else p.start)
      else if DatesStart(row, first, norm) && p.before == [] && (p.start == OPEN || row.from < p.start)
      then p.(start := row.from)
      else p
  }

  /** The result for rows already in date order. */
  function Merged(spans: seq<CallSign>, ordered: seq<WikidataRow>, norm: string -> string): seq<CallSign> {
    if spans == [] then Compacted(StableSort(AsSpans(ordered, norm), ByStart()))
    else if spans[0].from != OPEN then spans
    else
      var p := Scan(ordered, spans[0], norm);
      Compacted(p.before + spans[0 := spans[0].(from := p.start)])
  }

  lemma SortByStartFixed(ordered: seq<WikidataRow>, norm: string -> string)
    requires SortedBy(ordered, ByDates())
    ensures SortedBy(AsSpans(ordered, norm), ByStart())
  {
    forall i, j | 0 <= i < j < |ordered|
      ensures ByStart()(AsSpans(ordered, norm)[i], AsSpans(ordered, norm)[j])
    {
      assert ByDates()(ordered[i], ordered[j]);
    }
  }

  /** `rows` is sorted first, ties in any order; `ordered` is that slice, which the caller keeps. */
  method MergeWikidata(spans: seq<CallSign>, rows: seq<WikidataRow>, norm: string -> string)
    returns (merged: seq<CallSign>, ordered: seq<WikidataRow>)
    ensures SortedBy(ordered, ByDates()) && multiset(ordered) == multiset(rows)
    ensures forall r :: r in ordered <==> r in rows
    ensures merged == Merged(spans, ordered, norm)
  {
    ordered := SortSlice(rows, ByDates());
    if |spans| == 0 {
      var own: seq<CallSign> := [];
      for i := 0 to |ordered|
        invariant own == AsSpans(ordered[..i], norm)
      {
        own := own + [CallSign(norm(ordered[i].sign), ordered[i].from, ordered[i].to)];
      }
      assert ordered[..|ordered|] == ordered;
      own := StableSort(own, ByStart());
      merged := CompactSlice(own);
      return;
    }
    var first := spans[0];
    if first.from != OPEN {
      merged := spans;
      return;
    }
    var before: seq<CallSign>, start: Date := [], OPEN;
    for i := 0 to |ordered|
      invariant Prelude(before, start) == Scan(ordered[..i], first, norm)
    {
      var row := ordered[i];
      assert ordered[..i + 1][..i] == ordered[..i];
      var sign := norm(row.sign);
      if sign == "" {
      } else if sign != first.sign && row.to != OPEN && (first.to == OPEN || row.to <= first.to) {
        before := before + [CallSign(sign, row.from, row.to)];
        start := if start > row.to then start else row.to;
      } else if sign == first.sign && row.from != OPEN && |before| == 0
                && (first.to == OPEN || row.from < first.to) {
        if start == OPEN || row.from < start {
          start := row.from;
        }
      }
    }
    assert ordered[..|ordered|] == ordered;
    merged := CompactSlice(before + spans[0 := first.(from := start)]);
  }

  // ---------------------------------------------------------------- the prelude

  /** `before` is exactly the preceding rows. */
  lemma {:induction false} ScanBefore(rows: seq<WikidataRow>, first: CallSign, norm: string -> string, c: CallSign)
    ensures c in Scan(rows, first, norm).before
       <==> exists row :: row in rows && Precedes(row, first, norm) && c == AsSpan(row, norm)
  {
    if rows != [] {
      var n := |rows| - 1;
      ScanBefore(rows[..n], first, norm, c);
      assert rows == rows[..n] + [rows[n]];
    }
  }

  lemma {:induction false} ScanBounds(rows: seq<WikidataRow>, first: CallSign, norm: string -> string)
    ensures var p := Scan(rows, first, norm);
      && (forall k :: 0 <= k < |p.before| ==>
            p.before[k].sign != "" && p.before[k].sign != first.sign
            && p.before[k].to != OPEN && p.before[k].to <= p.start)
      && (first.to != OPEN ==> p.start <= first.to)
      && (p.start == OPEN ==> p.before == [])
  {
    if rows != [] {
      ScanBounds(rows[..|rows| - 1], first, norm);
    }
  }

  /** The row dates the first sign before any row precedes it, which is when the scan looks. */
  predicate Dates(rows: seq<WikidataRow>, i: nat, first: CallSign, norm: string -> string)
    requires i < |rows|
  {
    DatesStart(rows[i], first, norm) && forall j :: 0 <= j < i ==> !Precedes(rows[j], first, norm)
  }

  /** Some preceding tenure ends where the first FCC sign comes to start. */
  ghost predicate StartsAtAnEnd(p: Prelude) {
    exists k :: 0 <= k < |p.before| && p.before[k].to == p.start
  }

  /** Every date the scan took for the first sign lies after every end that precedes it. */
  ghost predicate DatedTooLate(rows: seq<WikidataRow>, first: CallSign, norm: string -> string) {
    && (exists i :: 0 <= i < |rows| && Dates(rows, i, first, norm))
    && (forall i, j :: 0 <= i < |rows| && 0 <= j < |rows| ==>
          (Dates(rows, i, first, norm) && Precedes(rows[j], first, norm) ==> rows[j].to < rows[i].from))
  }

  lemma {:induction false} NothingBefore(rows: seq<WikidataRow>, first: CallSign, norm: string -> string)
    ensures Scan(rows, first, norm).before == []
       <==> forall j :: 0 <= j < |rows| ==> !Precedes(rows[j], first, norm)
  {
    if rows != [] {
      NothingBefore(rows[..|rows| - 1], first, norm);
    }
  }

  /** `m` is the earliest row that dates the first sign, or no row's index when none does, and the
      start has come from it or from an end. */
  ghost predicate Earliest(rows: seq<WikidataRow>, first: CallSign, norm: string -> string, m: nat, p: Prelude) {
    if m < |rows|
    then
      && Dates(rows, m, first, norm)
      && (forall i :: 0 <= i < |rows| && Dates(rows, i, first, norm) ==> rows[m].from <= rows[i].from)
      && rows[m].from <= p.start && (p.start == rows[m].from || StartsAtAnEnd(p))
    else
      && (forall i :: 0 <= i < |rows| ==> !Dates(rows, i, first, norm))
      && (if p.before == [] then p.start == OPEN else StartsAtAnEnd(p))
  }

  lemma DatesPrefix(init: seq<WikidataRow>, row: WikidataRow, i: nat, first: CallSign, norm: string -> string)
    requires i < |init|
    ensures Dates(init + [row], i, first, norm) <==> Dates(init, i, first, norm)
  {
    hide DatesStart, Precedes;
    var rows := init + [row];
    assert forall j :: 0 <= j <= i ==> rows[j] == init[j];
  }

  /** Reading one more row that dates nothing. */
  lemma EarliestStays(init: seq<WikidataRow>, row: WikidataRow, first: CallSign, norm: string -> string,
                      m: nat, q: Prelude, p: Prelude)
    requires Earliest(init, first, norm, m, q) && !Dates(init + [row], |init|, first, norm)
    requires q.start <= p.start
    requires p == q || StartsAtAnEnd(p) || (p.start == q.start != OPEN && !StartsAtAnEnd(q))
    ensures Earliest(init + [row], first, norm, if m < |init| then m else |init| + 1, p)
  {
    assert StartsAtAnEnd(p) ==> p.before != [];
    hide Dates, StartsAtAnEnd;
    forall i | 0 <= i < |init| ensures Dates(init + [row], i, first, norm) <==> Dates(init, i, first, norm) {
      DatesPrefix(init, row, i, first, norm);
    }
  }

  /** Reading one more row that dates the first sign. */
  lemma EarliestDates(init: seq<WikidataRow>, row: WikidataRow, first: CallSign, norm: string -> string,
                      m: nat, q: Prelude)
    requires Earliest(init, first, norm, m, q) && Dates(init + [row], |init|, first, norm) && q.before == []
    requires row.from != OPEN
    ensures var closer := q.start == OPEN || row.from < q.start;
      Earliest(init + [row], first, norm, if closer then |init| else m, if closer then q.(start := row.from) else q)
  {
    assert !StartsAtAnEnd(q);
    assert m < |init| ==> init[m].from != OPEN;
    hide Dates;
    forall i | 0 <= i < |init| ensures Dates(init + [row], i, first, norm) <==> Dates(init, i, first, norm) {
      DatesPrefix(init, row, i, first, norm);
    }
  }

  /** One more preceding row: the start moves to its end, or stays as it was reached. */
  lemma EndReached(q: Prelude, c: CallSign, p: Prelude)
    requires c.to != OPEN && p == Prelude(q.before + [c], if c.to > q.start then c.to else q.start)
    ensures StartsAtAnEnd(p) || (p.start == q.start != OPEN && !StartsAtAnEnd(q))
  {
    if c.to > q.start {
      assert p.before[|q.before|].to == p.start;
    } else if k :| 0 <= k < |q.before| && q.before[k].to == q.start {
      assert p.before[k].to == p.start;
    }
  }

  lemma {:induction false} EarliestDate(rows: seq<WikidataRow>, first: CallSign, norm: string -> string)
    returns (m: nat)
    ensures Earliest(rows, first, norm, m, Scan(rows, first, norm))
  {
    m := 0;
    if rows != [] {
      var n := |rows| - 1;
      var init, row := rows[..n], rows[n];
      m := EarliestDate(init, first, norm);
      NothingBefore(init, first, norm);
      assert rows == init + [row];
      var q, p := Scan(init, first, norm), Scan(rows, first, norm);
      assert Dates(rows, n, first, norm) <==> DatesStart(row, first, norm) && q.before == [];
      hide Earliest, Dates, Scan;
      if DatesStart(row, first, norm) && q.before == [] {
        EarliestDates(init, row, first, norm, m, q);
        m := if q.start == OPEN || row.from < q.start then n else m;
      } else {
        if Precedes(row, first, norm) { EndReached(q, AsSpan(row, norm), p); }
        EarliestStays(init, row, first, norm, m, q, p);
        m := if m < n then m else n + 1;
      }
    }
  }

  /** When something precedes, the first FCC sign starts where a preceding tenure ends (then, by
      ScanBounds, the last one) exactly unless every date it was given before lies later. */
  lemma StartsWhereTheyEnd(rows: seq<WikidataRow>, first: CallSign, norm: string -> string)
    requires Scan(rows, first, norm).before != []
    ensures StartsAtAnEnd(Scan(rows, first, norm)) <==> !DatedTooLate(rows, first, norm)
  {
    var p := Scan(rows, first, norm);
    var m := EarliestDate(rows, first, norm);
    ScanBounds(rows, first, norm);
    if DatedTooLate(rows, first, norm) {
      forall k | 0 <= k < |p.before| ensures p.before[k].to != p.start {
        ScanBefore(rows, first, norm, p.before[k]);
        var row :| row in rows && Precedes(row, first, norm) && p.before[k] == AsSpan(row, norm);
        var j :| 0 <= j < |rows| && rows[j] == row;
      }
    } else if m < |rows| && p.start == rows[m].from {
      var i, j :| 0 <= i < |rows| && 0 <= j < |rows| && Dates(rows, i, first, norm)
        && Precedes(rows[j], first, norm) && rows[j].to >= rows[i].from;
      ScanBefore(rows, first, norm, AsSpan(rows[j], norm));
      var k :| 0 <= k < |p.before| && p.before[k] == AsSpan(rows[j], norm);
      assert p.before[k].to == p.start;
    }
  }

  /** In particular, when every preceding row has a day, the first FCC sign starts where the last
      preceding tenure ends or, when nothing precedes it, at its own earliest dated start. */
  lemma ScanStart(rows: seq<WikidataRow>, first: CallSign, norm: string -> string)
    requires SortedBy(rows, ByDates())
    requires forall row :: row in rows && Precedes(row, first, norm) ==> NonEmpty(AsSpan(row, norm))
    ensures var p := Scan(rows, first, norm);
      && (p.before != [] ==> StartsAtAnEnd(p))
      && (p.before == [] && p.start != OPEN ==>
            exists k :: 0 <= k < |rows| && DatesStart(rows[k], first, norm) && rows[k].from == p.start)
      && (p.before == [] ==> forall row :: row in rows && DatesStart(row, first, norm) ==>
            p.start != OPEN && p.start <= row.from)
  {
    hide Scan;
    var p := Scan(rows, first, norm);
    NothingBefore(rows, first, norm);
    if p.before != [] {
      StartsWhereTheyEnd(rows, first, norm);
      var j :| 0 <= j < |rows| && Precedes(rows[j], first, norm);
      NotTooLate(rows, first, norm, j);
    } else {
      var m := EarliestDate(rows, first, norm);
      forall row | row in rows && DatesStart(row, first, norm) ensures p.start != OPEN && p.start <= row.from {
        var i :| 0 <= i < |rows| && rows[i] == row;
        assert Dates(rows, i, first, norm);
      }
    }
  }

  lemma NotTooLate(rows: seq<WikidataRow>, first: CallSign, norm: string -> string, j: nat)
    requires SortedBy(rows, ByDates())
    requires j < |rows| && Precedes(rows[j], first, norm) && NonEmpty(AsSpan(rows[j], norm))
    ensures !DatedTooLate(rows, first, norm)
  {
    forall i | 0 <= i < |rows| && Dates(rows, i, first, norm) ensures rows[i].from <= rows[j].to {
      assert i < j;
      assert ByDates()(rows[i], rows[j]);
    }
  }

  /** Rows dated too late exist: a tenure recorded as ending before it began leaves the later date standing. */
  lemma InvertedRowKeepsDate()
    ensures var rows, first := [WikidataRow("WNEW", 10, OPEN), WikidataRow("WOLD", 20, 5)], CallSign("WNEW", OPEN, OPEN);
      SortedBy(rows, ByDates()) && Scan(rows, first, s => s) == Prelude([CallSign("WOLD", 20, 5)], 10)
  {
    var rows, first := [WikidataRow("WNEW", 10, OPEN), WikidataRow("WOLD", 20, 5)], CallSign("WNEW", OPEN, OPEN);
    assert rows[..1] == [rows[0]] && [rows[0]][..0] == [];
    assert "WOLD" != "WNEW" by { assert "WOLD"[1] != "WNEW"[1]; }
    assert Scan([rows[0]], first, s => s) == Prelude([], 10);
  }

  // ---------------------------------------------------------------- appending to a history

  ghost predicate Abuts(out: seq<CallSign>, b: seq<CallSign>) {
    out != [] && b != [] ==> out[|out| - 1].to != OPEN && out[|out| - 1].to <= b[0].from
  }

  lemma InitNormal(b: seq<CallSign>)
    requires NormalForm(b) && b != []
    ensures NormalForm(b[..|b| - 1])
  {
    var c := b[..|b| - 1];
    forall i | 0 < i < |c| ensures Follows(c[i - 1], c[i]) { assert Follows(b[i - 1], b[i]); }
  }

  lemma {:induction false} AppendLast(a: seq<CallSign>, b: seq<CallSign>)
    requires NormalForm(b) && b != [] && Abuts(Compacted(a), b)
    ensures var r := Compacted(a + b);
      r != [] && r[|r| - 1].sign == b[|b| - 1].sign && r[|r| - 1].to == b[|b| - 1].to
    ensures Abuts(Compacted(a + b[..|b| - 1]), [b[|b| - 1]])
  {
    hide Step, Held, Covers;
    var m := |b| - 1;
    var c, span := b[..m], b[m];
    assert (a + b)[..|a + b| - 1] == a + c;
    CompactedNormal(a + c);
    if m > 0 {
      InitNormal(b);
      AppendLast(a, c);
      assert Follows(b[m - 1], b[m]);
    } else {
      assert a + c == a;
    }
    assert Live(span);
    SeamFacts(Compacted(a + c), span, "", 0);
  }

  lemma AppendStep(a: seq<CallSign>, c: seq<CallSign>, span: CallSign, sign: string, d: int)
    requires Live(span) && Abuts(Compacted(a + c), [span])
    ensures Held(Compacted(a + (c + [span])), sign, d)
       <==> Held(Compacted(a + c), sign, d) || (span.sign == sign && Covers(span, d))
  {
    var all := a + (c + [span]);
    assert all[..|all| - 1] == a + c && all[|all| - 1] == span;
    CompactedNormal(a + c);
    SeamFacts(Compacted(a + c), span, sign, d);
  }

  /** Compacting a concatenation whose second part is in normal form and starts no earlier than
      the first ends loses nothing at the seam. */
  lemma {:induction false} CompactedAppend(a: seq<CallSign>, b: seq<CallSign>, sign: string, d: int)
    requires NormalForm(b) && Abuts(Compacted(a), b)
    ensures Held(Compacted(a + b), sign, d) <==> Held(Compacted(a), sign, d) || Held(b, sign, d)
  {
    hide Step, Held, Covers, Compacted;
    if b == [] {
      assert a + b == a;
      HeldNothing(sign, d);
    } else {
      var c, span := b[..|b| - 1], b[|b| - 1];
      InitNormal(b);
      AppendLast(a, b);
      assert Live(span) && b == c + [span];
      AppendStep(a, c, span, sign, d);
      HeldConcat(c, [span], sign, d);
      HeldOne(span, sign, d);
      CompactedAppend(a, c, sign, d);
    }
  }

  lemma SeamFacts(out: seq<CallSign>, span: CallSign, sign: string, d: int)
    requires NormalForm(out) && Live(span)
    requires out != [] ==> out[|out| - 1].to != OPEN && out[|out| - 1].to <= span.from
    ensures var r := Step(out, span);
      && r != [] && r[|r| - 1].sign == span.sign && r[|r| - 1].to == span.to
      && (Held(r, sign, d) <==> Held(out, sign, d) || (span.sign == sign && Covers(span, d)))
  {
    var n := |out| - 1;
    if n >= 0 { assert Live(out[n]); }
    if Held(Step(out, span), sign, d) { StepInventsNothing(out, span, sign, d); }
    if Held(out, sign, d) || (span.sign == sign && Covers(span, d)) {
      StepKeepsFacts(out, span, sign, d);
    }
  }

  lemma {:induction false} BeforeEndsByStart(before: seq<CallSign>, start: Date)
    requires forall k :: 0 <= k < |before| ==> before[k].to != OPEN && before[k].to <= start
    ensures forall k :: 0 <= k < |Compacted(before)| ==>
      Compacted(before)[k].to != OPEN && Compacted(before)[k].to <= start
  {
    if before != [] {
      BeforeEndsByStart(before[..|before| - 1], start);
    }
  }

  lemma CompactedSkips(a: seq<CallSign>, c: CallSign, b: seq<CallSign>)
    requires !Live(c)
    ensures Compacted(a + [c] + b) == Compacted(a + b)
    decreases |b|
  {
    hide Step, Live;
    if b == [] {
      var s := a + [c];
      assert s + b == s && a + b == a && s[..|s| - 1] == a;
      DeadStep(Compacted(a), c);
    } else {
      var m := |b| - 1;
      CompactedSkips(a, c, b[..m]);
      var s, t := a + [c] + b, a + b;
      assert s[..|s| - 1] == a + [c] + b[..m] && t[..|t| - 1] == a + b[..m];
      assert s[|s| - 1] == b[m] == t[|t| - 1];
    }
  }

  /** The facts of the prelude followed by the history with its head moved to `start`. */
  lemma MergedFacts(before: seq<CallSign>, start: Date, spans: seq<CallSign>, sign: string, d: int)
    requires NormalForm(spans) && spans != [] && spans[0].from == OPEN
    requires forall k :: 0 <= k < |before| ==> before[k].to != OPEN && before[k].to <= start
    requires spans[0].to != OPEN ==> start <= spans[0].to
    ensures var head := spans[0].(from := start);
      Held(Compacted(before + spans[0 := head]), sign, d)
      <==> Held(Compacted(before), sign, d) || (sign == head.sign && NonEmpty(head) && Covers(head, d))
           || Held(spans[1..], sign, d)
  {
    hide Held, Compacted, Covers, Step;
    var head := spans[0].(from := start);
    var rest := spans[1..];
    BeforeEndsByStart(before, start);
    CompactedNormal(before);
    TailFacts(spans, sign, d);
    assert Live(spans[0]);
    assert rest != [] ==> Follows(spans[0], spans[1]);
    assert spans[0 := head] == [head] + rest;
    if NonEmpty(head) {
      var b := [head] + rest;
      forall i | 0 < i < |b| ensures Follows(b[i - 1], b[i]) { assert Follows(spans[i - 1], spans[i]); }
      CompactedAppend(before, b, sign, d);
      HeldConcat([head], rest, sign, d);
      HeldOne(head, sign, d);
    } else {
      assert before + spans[0 := head] == before + [head] + rest;
      CompactedSkips(before, head, rest);
      CompactedAppend(before, rest, sign, d);
    }
  }

  /** What the merge means, day by day, for an FCC history that is in normal form and has no
      recorded start: the history from the first span's end on is untouched, the first sign
      holds from the computed start up to that end, and earlier days are the preceding rows'. */
  lemma MergeMeaning(spans: seq<CallSign>, ordered: seq<WikidataRow>, norm: string -> string,
                     sign: string, d: int)
    requires NormalForm(spans) && spans != [] && spans[0].from == OPEN
    ensures var r, first, p := Merged(spans, ordered, norm), spans[0], Scan(ordered, spans[0], norm);
      && (first.to != OPEN && d >= first.to ==> (Held(r, sign, d) <==> Held(spans, sign, d)))
      && ((first.to == OPEN || d < first.to) && (p.start == OPEN || p.start <= d) ==>
            (Held(r, sign, d) <==> sign == first.sign))
      && (p.start != OPEN && d < p.start ==> (Held(r, sign, d) <==> Held(Compacted(p.before), sign, d)))
  {
    var first, p := spans[0], Scan(ordered, spans[0], norm);
    ScanBounds(ordered, first, norm);
    BeforeEndsByStart(p.before, p.start);
    MergedFacts(p.before, p.start, spans, sign, d);
    TailFacts(spans, sign, d);
  }

  /** Every day before the computed start that the merge fills, it fills from a row. */
  lemma PreludeComesFromRows(ordered: seq<WikidataRow>, first: CallSign, norm: string -> string,
                             sign: string, d: int)
    requires Held(Compacted(Scan(ordered, first, norm).before), sign, d)
    ensures exists row :: (row in ordered && Precedes(row, first, norm)
      && norm(row.sign) == sign && Covers(AsSpan(row, norm), d))
  {
    var before := Scan(ordered, first, norm).before;
    CompactedInventsNothing(before, sign, d);
    var i :| 0 <= i < |before| && before[i].sign == sign && Covers(before[i], d);
    ScanBefore(ordered, first, norm, before[i]);
  }

  predicate Agree(x: CallSign, y: CallSign) {
    x.sign == y.sign || x.sign == "" || y.sign == "" || !Overlaps(x, y)
  }

  /** No two rows of different parseable signs overlap. */
  ghost predicate Agreeing(rows: seq<WikidataRow>, norm: string -> string) {
    forall i, j :: 0 <= i < j < |rows| ==> Agree(AsSpan(rows[i], norm), AsSpan(rows[j], norm))
  }

  /** A row's span is in `before` only if the row precedes, and what precedes keeps its order. */
  lemma {:induction false} BeforeConsistent(rows: seq<WikidataRow>, first: CallSign, norm: string -> string)
    requires SortedBy(rows, ByDates()) && Agreeing(rows, norm)
    ensures Consistent(Scan(rows, first, norm).before)
  {
    if rows != [] {
      var n := |rows| - 1;
      var init, row := rows[..n], rows[n];
      BeforePrefix(rows, norm);
      BeforeConsistent(init, first, norm);
      if Precedes(row, first, norm) {
        var before, c := Scan(init, first, norm).before, AsSpan(row, norm);
        forall k | 0 <= k < |before|
          ensures before[k].from <= c.from && Agree(before[k], c)
        {
          ScanBefore(init, first, norm, before[k]);
          var q :| q in init && Precedes(q, first, norm) && before[k] == AsSpan(q, norm);
          var i :| 0 <= i < n && rows[i] == q;
          assert ByDates()(rows[i], rows[n]);
        }
        ConsistentSnoc(before, c);
      }
    }
  }

  lemma BeforePrefix(rows: seq<WikidataRow>, norm: string -> string)
    requires SortedBy(rows, ByDates()) && Agreeing(rows, norm) && rows != []
    ensures SortedBy(rows[..|rows| - 1], ByDates()) && Agreeing(rows[..|rows| - 1], norm)
  {
  }

  lemma ConsistentSnoc(s: seq<CallSign>, c: CallSign)
    requires Consistent(s)
    requires forall k :: 0 <= k < |s| ==> s[k].from <= c.from && Agree(s[k], c)
    ensures Consistent(s + [c])
  {
  }

  /** When the rows do not contradict one another, the prelude is exactly the preceding rows: no
      day of theirs is lost in joining them. */
  lemma PreludeKeepsRows(ordered: seq<WikidataRow>, first: CallSign, norm: string -> string,
                         sign: string, d: int)
    requires SortedBy(ordered, ByDates()) && Agreeing(ordered, norm)
    ensures Held(Compacted(Scan(ordered, first, norm).before), sign, d) <==>
      exists row :: (row in ordered && Precedes(row, first, norm)
        && norm(row.sign) == sign && Covers(AsSpan(row, norm), d))
  {
    hide Agreeing, Consistent, Compacted;
    if Held(Compacted(Scan(ordered, first, norm).before), sign, d) {
      PreludeComesFromRows(ordered, first, norm, sign, d);
    }
    if row :| row in ordered && Precedes(row, first, norm) && norm(row.sign) == sign && Covers(AsSpan(row, norm), d) {
      var before := Scan(ordered, first, norm).before;
      ScanBefore(ordered, first, norm, AsSpan(row, norm));
      var k :| 0 <= k < |before| && before[k] == AsSpan(row, norm);
      assert before[k].sign == sign && Covers(before[k], d);
      BeforeConsistent(ordered, first, norm);
      CompactedKeepsFacts(before, sign, d);
    }
  }

  /** The merge returns a normal form, whichever branch it takes. */
  lemma MergeNormal(spans: seq<CallSign>, ordered: seq<WikidataRow>, norm: string -> string)
    requires NormalForm(spans)
    ensures NormalForm(Merged(spans, ordered, norm))
    ensures spans != [] && spans[0].from != OPEN ==> Merged(spans, ordered, norm) == spans
  {
    if spans == [] {
      CompactedNormal(StableSort(AsSpans(ordered, norm), ByStart()));
    } else {
      var p := Scan(ordered, spans[0], norm);
      CompactedNormal(p.before + spans[0 := spans[0].(from := p.start)]);
    }
  }

  lemma MergedAlone(ordered: seq<WikidataRow>, norm: string -> string)
    requires SortedBy(ordered, ByDates())
    ensures Merged([], ordered, norm) == Compacted(AsSpans(ordered, norm))
    ensures Agreeing(ordered, norm) ==> Consistent(AsSpans(ordered, norm))
  {
    hide Compacted;
    var own := AsSpans(ordered, norm);
    SortByStartFixed(ordered, norm);
    StableSortFixed(own, ByStart());
    forall i, j | 0 <= i < j < |own| ensures own[i].from <= own[j].from { assert ByStart()(own[i], own[j]); }
  }

  /** With no FCC history the rows themselves are the history: nothing is invented, and when the
      rows do not contradict one another nothing is lost. */
  lemma MergeAlone(ordered: seq<WikidataRow>, norm: string -> string, sign: string, d: int)
    requires SortedBy(ordered, ByDates())
    ensures Held(Merged([], ordered, norm), sign, d) ==> Held(AsSpans(ordered, norm), sign, d)
    ensures Agreeing(ordered, norm) && sign != "" && Held(AsSpans(ordered, norm), sign, d)
        ==> Held(Merged([], ordered, norm), sign, d)
  {
    hide Compacted, Merged, AsSpans, Held, Agreeing, Consistent;
    var own := AsSpans(ordered, norm);
    MergedAlone(ordered, norm);
    if Held(Compacted(own), sign, d) { CompactedInventsNothing(own, sign, d); }
    if Agreeing(ordered, norm) { CompactedKeepsFacts(own, sign, d); }
  }

  /** Whichever branch it takes, the merge holds nothing that neither the history nor a row does. */
  lemma MergeInventsNothing(spans: seq<CallSign>, ordered: seq<WikidataRow>, norm: string -> string,
                            sign: string, d: int)
    requires NormalForm(spans) && SortedBy(ordered, ByDates())
    requires Held(Merged(spans, ordered, norm), sign, d)
    ensures Held(spans, sign, d)
      || exists row :: (row in ordered && norm(row.sign) == sign && Covers(AsSpan(row, norm), d))
  {
    if spans == [] {
      MergeAlone(ordered, norm, sign, d);
      var own := AsSpans(ordered, norm);
      var i :| 0 <= i < |own| && own[i].sign == sign && Covers(own[i], d);
      assert ordered[i] in ordered;
    } else if spans[0].from == OPEN {
      MergeMeaning(spans, ordered, norm, sign, d);
      var first, p := spans[0], Scan(ordered, spans[0], norm);
      if p.start != OPEN && d < p.start && (first.to == OPEN || d < first.to) {
        PreludeComesFromRows(ordered, first, norm, sign, d);
      } else if first.to == OPEN || d < first.to {
        assert first.sign == sign && Covers(first, d);
      }
    }
  }

  // ---------------------------------------------------------------- the merge, in the rows' own terms

  /** The positions of the preceding rows, in order, with the span of each. */
  ghost predicate Positions(rows: seq<WikidataRow>, first: CallSign, norm: string -> string, pos: seq<nat>,
                            before: seq<CallSign>)
  {
    && (forall a, b :: 0 <= a < b < |pos| ==> pos[a] < pos[b])
    && (forall i :: i in pos <==> 0 <= i < |rows| && Precedes(rows[i], first, norm))
    && |before| == |pos|
    && (forall k :: 0 <= k < |pos| ==> pos[k] < |rows| && before[k] == AsSpan(rows[pos[k]], norm))
  }

  lemma PositionsStay(rows: seq<WikidataRow>, row: WikidataRow, first: CallSign, norm: string -> string, pos: seq<nat>,
                      before: seq<CallSign>)
    requires Positions(rows, first, norm, pos, before) && !Precedes(row, first, norm)
    ensures Positions(rows + [row], first, norm, pos, before)
  {
    hide Precedes, AsSpan;
  }

  lemma PositionsGrow(rows: seq<WikidataRow>, row: WikidataRow, first: CallSign, norm: string -> string, pos: seq<nat>,
                      before: seq<CallSign>)
    requires Positions(rows, first, norm, pos, before) && Precedes(row, first, norm)
    ensures Positions(rows + [row], first, norm, pos + [|rows|], before + [AsSpan(row, norm)])
  {
    hide Precedes, AsSpan;
    assert forall k :: 0 <= k < |pos| ==> pos[k] in pos;
    var all := rows + [row];
    forall i ensures i in pos + [|rows|] <==> 0 <= i < |all| && Precedes(all[i], first, norm) {
      if 0 <= i < |rows| { assert all[i] == rows[i]; }
    }
  }

  lemma {:induction false} ScanPositions(rows: seq<WikidataRow>, first: CallSign, norm: string -> string)
    returns (pos: seq<nat>)
    ensures Positions(rows, first, norm, pos, Scan(rows, first, norm).before)
  {
    hide Precedes, AsSpan, DatesStart;
    pos := [];
    if rows != [] {
      var n := |rows| - 1;
      var init, row := rows[..n], rows[n];
      pos := ScanPositions(init, first, norm);
      hide Positions;
      assert rows == init + [row];
      if Precedes(row, first, norm) {
        PositionsGrow(init, row, first, norm, pos, Scan(init, first, norm).before);
        pos := pos + [n];
      } else {
        PositionsStay(init, row, first, norm, pos, Scan(init, first, norm).before);
      }
    }
  }

  /** The preceding rows, all of them and no other, are put in front in the order the rows come in:
      the rows of another parseable sign than the first FCC one that have an end, no later than that
      of the first FCC span. */
  lemma PreludeInOrder(rows: seq<WikidataRow>, first: CallSign, norm: string -> string) returns (pos: seq<nat>)
    ensures forall a, b :: 0 <= a < b < |pos| ==> pos[a] < pos[b]
    ensures forall i :: i in pos <==> (0 <= i < |rows| && norm(rows[i].sign) != "" && norm(rows[i].sign) != first.sign
      && rows[i].to != OPEN && (first.to == OPEN || rows[i].to <= first.to))
    ensures var before := Scan(rows, first, norm).before;
      && |before| == |pos|
      && (forall k :: 0 <= k < |pos| ==>
            pos[k] < |rows| && before[k] == CallSign(norm(rows[pos[k]].sign), rows[pos[k]].from, rows[pos[k]].to))
  {
    hide Scan;
    pos := ScanPositions(rows, first, norm);
  }

  /** The days before the computed start, for rows that may contradict one another: a row that does
      not precede changes nothing; one that starts when the last one has ended adds its days; one of
      another sign that starts later than the last one, but before its end, takes over from its
      start; any other adds only the days after that end. */
  lemma PreludeRule(rows: seq<WikidataRow>, row: WikidataRow, first: CallSign, norm: string -> string,
                    sign: string, d: int)
    ensures var out, next := Compacted(Scan(rows, first, norm).before), Compacted(Scan(rows + [row], first, norm).before);
      var name := norm(row.sign);
      var precedes := name != "" && name != first.sign && row.to != OPEN && (first.to == OPEN || row.to <= first.to);
      var said := sign == name && (row.from == OPEN || row.from <= d) && d < row.to;
      Held(next, sign, d) <==>
        if !precedes || row.from >= row.to then Held(out, sign, d)
        else if out == [] || (out[|out| - 1].to != OPEN && out[|out| - 1].to <= row.from) then Held(out, sign, d) || said
        else
          var last := out[|out| - 1];
          if last.sign != name && row.from > last.from then (if d >= row.from then said else Held(out, sign, d))
          else Held(out, sign, d) || (said && last.to != OPEN && d >= last.to)
  {
    hide Compacted, Held;
    var all := rows + [row];
    assert all[..|all| - 1] == rows;
    CompactedRule(Scan(rows, first, norm).before, AsSpan(row, norm), sign, d);
  }

  /** The source's own example: KOY 1953-1954 and KOOL 1953-1982 before KSAZ. */
  lemma KoyAndKool()
    ensures Merged([CallSign("KSAZ", OPEN, OPEN)], [WikidataRow("KOY", 1953, 1954), WikidataRow("KOOL", 1953, 1982)], s => s)
      == [CallSign("KOY", 1953, 1954), CallSign("KOOL", 1954, 1982), CallSign("KSAZ", 1982, OPEN)]
  {
    var koy, kool := WikidataRow("KOY", 1953, 1954), WikidataRow("KOOL", 1953, 1982);
    var first, norm := CallSign("KSAZ", OPEN, OPEN), (s: string) => s;
    var a, b, c := CallSign("KOY", 1953, 1954), CallSign("KOOL", 1953, 1982), CallSign("KSAZ", 1982, OPEN);
    KoyAndKoolScan(koy, kool, first, norm);
    hide Scan, Step;
    NoneCompacted();
    assert [] + [a] == [a] && [a] + [b] == [a, b] && [a, b] + [c] == [a, b, c];
    CompactedWith([], a);
    CompactedWith([a], b);
    CompactedWith([a, b], c);
    KoyAndKoolSteps(a, b, c);
    assert [a, b] + [first][0 := c] == [a, b, c];
  }

  lemma NoneCompacted()
    ensures Compacted([]) == []
  {
  }

  lemma KoyAndKoolScan(koy: WikidataRow, kool: WikidataRow, first: CallSign, norm: string -> string)
    requires koy == WikidataRow("KOY", 1953, 1954) && kool == WikidataRow("KOOL", 1953, 1982)
    requires first == CallSign("KSAZ", OPEN, OPEN) && norm("KOY") == "KOY" && norm("KOOL") == "KOOL"
    ensures Scan([koy, kool], first, norm) == Prelude([CallSign("KOY", 1953, 1954), CallSign("KOOL", 1953, 1982)], 1982)
  {
    assert "KOY"[1] != "KSAZ"[1] && "KOOL"[1] != "KSAZ"[1];
    assert [koy, kool][..1] == [koy] && [koy][..0] == [];
    assert Scan([koy], first, norm) == Prelude([CallSign("KOY", 1953, 1954)], 1954);
  }

  lemma KoyAndKoolSteps(a: CallSign, b: CallSign, c: CallSign)
    requires a == CallSign("KOY", 1953, 1954) && b == CallSign("KOOL", 1953, 1982) && c == CallSign("KSAZ", 1982, OPEN)
    ensures Step([], a) == [a] && Step([a], b) == [a, CallSign("KOOL", 1954, 1982)]
    ensures Step([a, CallSign("KOOL", 1954, 1982)], c) == [a, CallSign("KOOL", 1954, 1982), c]
  {
    assert "KOY"[2] != "KOOL"[2] && "KOOL"[1] != "KSAZ"[1];
  }

  /** When the first FCC sign starts, with every row's words spelled out: if a row precedes, on the
      days no preceding row still has to run; if none does, from the earliest date a row gives it,
      and for ever back if none gives one. */
  lemma StartInPlainTerms(spans: seq<CallSign>, ordered: seq<WikidataRow>, norm: string -> string, d: int)
    requires NormalForm(spans) && spans != [] && spans[0].from == OPEN && (spans[0].to == OPEN || d < spans[0].to)
    requires SortedBy(ordered, ByDates())
    requires forall row :: row in ordered && row.to != OPEN ==> row.from < row.to
    ensures var first := spans[0];
      Held(Merged(spans, ordered, norm), first.sign, d) <==>
        && (forall row | row in ordered && norm(row.sign) != "" && norm(row.sign) != first.sign && row.to != OPEN
              && (first.to == OPEN || row.to <= first.to) :: row.to <= d)
        && ((exists row :: row in ordered && norm(row.sign) != "" && norm(row.sign) != first.sign && row.to != OPEN
              && (first.to == OPEN || row.to <= first.to))
            || (forall row | row in ordered ::
                  norm(row.sign) == "" || norm(row.sign) != first.sign || row.from == OPEN
                  || (first.to != OPEN && row.from >= first.to))
            || (exists row :: row in ordered && norm(row.sign) != "" && norm(row.sign) == first.sign && row.from != OPEN
                  && (first.to == OPEN || row.from < first.to) && row.from <= d))
  {
    hide Merged, Compacted, Held, Scan;
    var first, p := spans[0], Scan(ordered, spans[0], norm);
    MergeMeaning(spans, ordered, norm, first.sign, d);
    ScanBounds(ordered, first, norm);
    ScanStart(ordered, first, norm);
    NothingBefore(ordered, first, norm);
    forall row | row in ordered && Precedes(row, first, norm) ensures row.to <= p.start && p.before != [] {
      ScanBefore(ordered, first, norm, AsSpan(row, norm));
    }
    PreludeIsOthers(ordered, first, norm, d);
    if p.before != [] {
      var k :| 0 <= k < |p.before| && p.before[k].to == p.start;
      ScanBefore(ordered, first, norm, p.before[k]);
      var last :| last in ordered && Precedes(last, first, norm) && p.before[k] == AsSpan(last, norm);
    } else if p.start != OPEN {
      var k :| 0 <= k < |ordered| && DatesStart(ordered[k], first, norm) && ordered[k].from == p.start;
      assert ordered[k] in ordered;
    }
  }

  /** Nothing in front of the first FCC sign carries that sign. */
  lemma PreludeIsOthers(rows: seq<WikidataRow>, first: CallSign, norm: string -> string, d: int)
    ensures !Held(Compacted(Scan(rows, first, norm).before), first.sign, d)
  {
    if Held(Compacted(Scan(rows, first, norm).before), first.sign, d) {
      PreludeComesFromRows(rows, first, norm, first.sign, d);
    }
  }
}
