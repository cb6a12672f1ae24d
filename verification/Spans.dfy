/** Call-sign spans and their normaliser (cmd/station-data/main.go, `compact` and `overlaps`).

  A date is the natural number of its YYYY-MM-DD string in string order, with 0 for the
  empty string: "" is the least string, so every string comparison of the program is a
  comparison of naturals here.  As a start, 0 means "no recorded start"; as an end, 0
  means "no recorded end". */
module Spans {

  type Date = nat

  const OPEN: Date := 0

  datatype CallSign = CallSign(sign: string, from: Date, to: Date)

  // ---------------------------------------------------------------- meaning

  /** The span is valid on day `d`.  Days range over all integers, so an open bound is
      distinguishable from every dated one. */
  predicate Covers(c: CallSign, d: int) {
    (c.from == OPEN || c.from <= d) && (c.to == OPEN || d < c.to)
  }

  /** The history `spans` names `sign` on day `d`. */
  ghost predicate Held(spans: seq<CallSign>, sign: string, d: int) {
    exists i :: 0 <= i < |spans| && spans[i].sign == sign && Covers(spans[i], d)
  }

  ghost predicate SameFacts(a: seq<CallSign>, b: seq<CallSign>) {
    forall sign, d :: Held(a, sign, d) <==> Held(b, sign, d)
  }

  /** Some day lies in the span. */
  predicate NonEmpty(c: CallSign) {
    c.from == OPEN || c.to == OPEN || c.from < c.to
  }

  /** The span carries a parseable sign and at least one day. */
  predicate Live(c: CallSign) {
    c.sign != "" && NonEmpty(c)
  }

  /** `x` ends before `y` starts, and the two could not be written as one span. */
  predicate Follows(x: CallSign, y: CallSign) {
    x.to != OPEN && (x.to < y.from || (x.to == y.from && x.sign != y.sign))
  }

  /** Non-empty, strictly ordered, disjoint spans with no two that could be joined. */
  predicate NormalForm(s: seq<CallSign>) {
    && (forall i :: 0 <= i < |s| ==> Live(s[i]))
    && (forall i :: 0 < i < |s| ==> Follows(s[i - 1], s[i]))
  }

  /** Half-open intervals meet. */
  predicate Overlaps(x: CallSign, y: CallSign) {
    (x.to == OPEN || y.from < x.to) && (y.to == OPEN || x.from < y.to)
  }

  lemma HeldConcat(a: seq<CallSign>, b: seq<CallSign>, sign: string, d: int)
    ensures Held(a + b, sign, d) <==> Held(a, sign, d) || Held(b, sign, d)
  {
    var c := a + b;
    if i :| 0 <= i < |c| && c[i].sign == sign && Covers(c[i], d) {
      assert if i < |a| then c[i] == a[i] else c[i] == b[i - |a|];
    }
    if i :| 0 <= i < |a| && a[i].sign == sign && Covers(a[i], d) {
      assert c[i] == a[i];
    }
    if i :| 0 <= i < |b| && b[i].sign == sign && Covers(b[i], d) {
      assert c[|a| + i] == b[i];
    }
  }

  lemma HeldNothing(sign: string, d: int)
    ensures !Held([], sign, d)
  {
  }

  lemma HeldOne(c: CallSign, sign: string, d: int)
    ensures Held([c], sign, d) <==> c.sign == sign && Covers(c, d)
  {
    assert [c][0] == c;
  }

  // ---------------------------------------------------------------- compact

  /** What one iteration of `compact` does to the output built so far. */
  function Step(out: seq<CallSign>, span: CallSign): seq<CallSign> {
    if !Live(span) then out
    else if out == [] then [span]
    else
      var n := |out| - 1;
      var last := out[n];
      if last.sign == span.sign && (last.to == OPEN || last.to >= span.from) then
        if last.to != OPEN && (span.to == OPEN || span.to > last.to)
        then out[n := last.(to := span.to)]
        else out
      else if last.to == OPEN || last.to > span.from then
        if span.from != OPEN && span.from > last.from then out[n := last.(to := span.from)] + [span]
        else if last.to != OPEN && (span.to == OPEN || span.to > last.to) then out + [span.(from := last.to)]
        else out
      else out + [span]
  }

  function Compacted(spans: seq<CallSign>): seq<CallSign> {
    if spans == [] then [] else Step(Compacted(spans[..|spans| - 1]), spans[|spans| - 1])
  }

  /** The in-place pass over `spans[:0]`: the first `n` cells end up holding the result,
      and at every iteration the cells still to be read are as they were. */
  method Compact(spans: array<CallSign>) returns (n: nat)
    modifies spans
    ensures n <= spans.Length
    ensures spans[..n] == Compacted(old(spans[..]))
    ensures NormalForm(spans[..n])
  {
    hide Compacted, NormalForm;
    n := 0;
    ghost var was := spans[..];
    CompactedNothing();
    for i := 0 to spans.Length
      invariant n <= i
      invariant forall k :: i <= k < spans.Length ==> spans[k] == was[k]
      invariant spans[..n] == Compacted(was[..i])
    {
      var span := spans[i];
      ghost var out := spans[..n];
      CompactedSnoc(was, i);
      if span.sign == "" || (span.from != OPEN && span.to != OPEN && span.from >= span.to) {
        continue;
      }
      if n > 0 && spans[n - 1].sign == span.sign
         && (spans[n - 1].to == OPEN || spans[n - 1].to >= span.from) {
        if spans[n - 1].to != OPEN && (span.to == OPEN || span.to > spans[n - 1].to) {
          spans[n - 1] := spans[n - 1].(to := span.to);
          assert spans[..n] == out[n - 1 := spans[n - 1]];
        }
        continue;
      }
      if n > 0 && (spans[n - 1].to == OPEN || spans[n - 1].to > span.from) {
        if span.from != OPEN && span.from > spans[n - 1].from {
          spans[n - 1] := spans[n - 1].(to := span.from);
          out := out[n - 1 := spans[n - 1]];
        } else if spans[n - 1].to != OPEN && (span.to == OPEN || span.to > spans[n - 1].to) {
          span := span.(from := spans[n - 1].to);
        } else {
          continue;
        }
      }
      assert spans[..n] == out;
      spans[n] := span;
      n := n + 1;
      assert spans[..n] == out + [span];
    }
    assert was[..spans.Length] == was;
    CompactedNormal(was);
  }

  lemma CompactedNothing()
    ensures Compacted([]) == []
  {
  }

  lemma CompactedSnoc(s: seq<CallSign>, i: nat)
    requires i < |s|
    ensures Compacted(s[..i + 1]) == Step(Compacted(s[..i]), s[i])
  {
    assert s[..i + 1][..i] == s[..i];
  }

  /** `compact` as the rest of the program calls it: on a slice it owns. */
  method CompactSlice(spans: seq<CallSign>) returns (out: seq<CallSign>)
    ensures out == Compacted(spans)
    ensures NormalForm(out)
  {
    var a := new CallSign[|spans|](i requires 0 <= i < |spans| => spans[i]);
    assert a[..] == spans;
    var n := Compact(a);
    out := a[..n];
  }

  // ---------------------------------------------------------------- any input

  /** Normal form is about neighbours; this is what it says about any two spans. */
  lemma {:induction false} NormalOrder(s: seq<CallSign>, i: nat, j: nat)
    requires NormalForm(s) && i < j < |s|
    ensures s[i].to != OPEN && s[i].to <= s[j].from && s[j].from != OPEN
    decreases j
  {
    if i < j - 1 {
      NormalOrder(s, i, j - 1);
      assert Live(s[j - 1]) && Follows(s[j - 1], s[j]);
    } else {
      assert Follows(s[j - 1], s[j]);
    }
  }

  lemma StepNormal(out: seq<CallSign>, span: CallSign)
    requires NormalForm(out)
    ensures NormalForm(Step(out, span))
  {
    var r := Step(out, span);
    if Live(span) && out != [] {
      var n := |out| - 1;
      assert Live(out[n]);
      assert forall i :: 0 <= i < n ==> r[i] == out[i];
      assert n > 0 ==> Follows(out[n - 1], out[n]);
      forall i | 0 < i < |r| ensures Follows(r[i - 1], r[i]) {
        if i < n { assert Follows(out[i - 1], out[i]); }
      }
    }
  }

  /** On any input, unsorted or contradictory, the result is in normal form. */
  lemma {:induction false} CompactedNormal(spans: seq<CallSign>)
    ensures NormalForm(Compacted(spans))
  {
    if spans != [] {
      CompactedNormal(spans[..|spans| - 1]);
      StepNormal(Compacted(spans[..|spans| - 1]), spans[|spans| - 1]);
    }
  }

  lemma StepInventsNothing(out: seq<CallSign>, span: CallSign, sign: string, d: int)
    requires Held(Step(out, span), sign, d)
    ensures Held(out, sign, d) || (span.sign == sign && Covers(span, d))
  {
    var r := Step(out, span);
    var i :| 0 <= i < |r| && r[i].sign == sign && Covers(r[i], d);
    if i < |out| && Covers(out[i], d) {
      assert r[i].sign == out[i].sign;
    }
  }

  /** What one more span does to the facts, day by day, whatever came before.  A span that starts
      when the last one has ended is added.  Otherwise a later start of another sign ends the
      last span; and a span of the same sign, or one that starts with the last or before it,
      keeps only the days after the last one's end. */
  lemma StepRule(out: seq<CallSign>, span: CallSign, sign: string, d: int)
    requires NormalForm(out) && out != [] && Live(span)
    ensures var last := out[|out| - 1];
      var said := span.sign == sign && Covers(span, d);
      Held(Step(out, span), sign, d) <==>
        if last.to != OPEN && last.to <= span.from then Held(out, sign, d) || said
        else if last.sign != span.sign && span.from > last.from then
          (if d >= span.from then said else Held(out, sign, d))
        else Held(out, sign, d) || (said && last.to != OPEN && d >= last.to)
  {
    var n := |out| - 1;
    var init, last := out[..n], out[n];
    assert out == init + [last] && Live(last);
    HeldConcat(init, [last], sign, d);
    HeldOne(last, sign, d);
    InitEndsBefore(out, sign, d);
    var cut := last.(to := span.from);
    var late := span.(from := last.to);
    var longer := last.(to := span.to);
    assert out[n := cut] + [span] == init + [cut] + [span] && out[n := longer] == init + [longer];
    hide Held;
    HeldConcat(out, [span], sign, d);
    HeldConcat(out, [late], sign, d);
    HeldConcat(init, [longer], sign, d);
    HeldConcat(init, [cut], sign, d);
    HeldConcat(init + [cut], [span], sign, d);
    HeldOne(span, sign, d);
    HeldOne(late, sign, d);
    HeldOne(longer, sign, d);
    HeldOne(cut, sign, d);
  }

  /** The whole of `compact`, span by span, for any input at all: what one more span does to the
      facts.  With CompactedNormal and NormalUnique this leaves one list only. */
  lemma CompactedRule(s: seq<CallSign>, span: CallSign, sign: string, d: int)
    ensures var out := Compacted(s);
      var said := span.sign == sign && sign != "" && Covers(span, d);
      Held(Compacted(s + [span]), sign, d) <==>
        if span.sign == "" || !NonEmpty(span) then Held(out, sign, d)
        else if out == [] || (out[|out| - 1].to != OPEN && out[|out| - 1].to <= span.from) then Held(out, sign, d) || said
        else
          var last := out[|out| - 1];
          if last.sign != span.sign && span.from > last.from then
            (if d >= span.from then said else Held(out, sign, d))
          else Held(out, sign, d) || (said && last.to != OPEN && d >= last.to)
  {
    hide Step, Held, Compacted, NormalForm;
    var out := Compacted(s);
    CompactedWith(s, span);
    CompactedNormal(s);
    if !Live(span) {
      DeadStep(out, span);
    } else if out == [] {
      FirstStep(span);
      HeldOne(span, sign, d);
      HeldNothing(sign, d);
    } else {
      StepRule(out, span, sign, d);
    }
  }

  lemma CompactedWith(s: seq<CallSign>, span: CallSign)
    ensures Compacted(s + [span]) == Step(Compacted(s), span)
  {
    var all := s + [span];
    assert all[..|all| - 1] == s;
  }

  lemma FirstStep(span: CallSign)
    requires Live(span)
    ensures Step([], span) == [span]
  {
  }

  lemma DeadStep(out: seq<CallSign>, c: CallSign)
    requires !Live(c)
    ensures Step(out, c) == out
  {
  }

  lemma InitEndsBefore(out: seq<CallSign>, sign: string, d: int)
    requires NormalForm(out) && out != []
    ensures Held(out[..|out| - 1], sign, d) ==> d < out[|out| - 1].from
  {
    var n := |out| - 1;
    if i :| 0 <= i < n && out[..n][i].sign == sign && Covers(out[..n][i], d) {
      NormalOrder(out, i, n);
    }
  }

  /** On any input, no fact of the result is absent from the input. */
  lemma {:induction false} CompactedInventsNothing(spans: seq<CallSign>, sign: string, d: int)
    requires Held(Compacted(spans), sign, d)
    ensures Held(spans, sign, d)
  {
    if spans != [] {
      var m := |spans| - 1;
      StepInventsNothing(Compacted(spans[..m]), spans[m], sign, d);
      if Held(Compacted(spans[..m]), sign, d) {
        CompactedInventsNothing(spans[..m], sign, d);
        var i :| 0 <= i < m && spans[..m][i].sign == sign && Covers(spans[..m][i], d);
        assert spans[i].sign == sign && Covers(spans[i], d);
      }
    }
  }

  /** A list already in normal form is returned as it is. */
  lemma {:induction false} NormalFixed(s: seq<CallSign>)
    requires NormalForm(s)
    ensures Compacted(s) == s
  {
    if s != [] {
      var m := |s| - 1;
      forall i | 0 < i < m ensures Follows(s[..m][i - 1], s[..m][i]) {
        assert Follows(s[i - 1], s[i]);
      }
      NormalFixed(s[..m]);
      assert Live(s[m]);
      if m > 0 { assert Follows(s[m - 1], s[m]); }
      assert s == s[..m] + [s[m]];
    }
  }

  lemma CompactedIdempotent(spans: seq<CallSign>)
    ensures Compacted(Compacted(spans)) == Compacted(spans)
  {
    CompactedNormal(spans);
    NormalFixed(Compacted(spans));
  }

  // ---------------------------------------------------------------- consistent input

  /** No two spans that count disagree: they start in order, and only spans of one sign overlap. */
  ghost predicate Consistent(s: seq<CallSign>) {
    forall i, j :: 0 <= i < j < |s| && Live(s[i]) && Live(s[j]) ==>
      s[i].from <= s[j].from && (s[i].sign != s[j].sign ==> !Overlaps(s[i], s[j]))
  }

  lemma StepKeepsFacts(out: seq<CallSign>, span: CallSign, sign: string, d: int)
    requires NormalForm(out)
    requires out != [] && Live(span) ==> var last := out[|out| - 1];
      last.from <= span.from && (last.sign != span.sign ==> last.to != OPEN && last.to <= span.from)
    requires Held(out, sign, d) || (Live(span) && span.sign == sign && Covers(span, d))
    ensures Held(Step(out, span), sign, d)
  {
    var r := Step(out, span);
    if Held(out, sign, d) {
      var i :| 0 <= i < |out| && out[i].sign == sign && Covers(out[i], d);
      assert r[i].sign == sign && Covers(r[i], d);
    } else if out == [] || |r| > |out| {
      assert r[|r| - 1] == span;
    } else {
      var n := |out| - 1;
      assert out[n].sign == sign && !Covers(out[n], d);
      assert r[n].sign == sign && Covers(r[n], d);
    }
  }

  lemma ConsistentPrefix(s: seq<CallSign>)
    requires Consistent(s) && s != []
    ensures Consistent(s[..|s| - 1])
  {
  }

  /** The last span of the output either stays, or takes the sign and the end of the new span. */
  lemma StepLast(out: seq<CallSign>, span: CallSign)
    requires out != [] && Live(span) ==> var last := out[|out| - 1];
      last.from <= span.from && (last.sign != span.sign ==> last.to != OPEN && last.to <= span.from)
    ensures var r := Step(out, span);
      |r| >= |out| && (r != [] ==>
      var last := r[|r| - 1];
      (out != [] && last == out[|out| - 1])
      || (Live(span) && last.sign == span.sign && last.to == span.to && last.from <= span.from))
  {
  }

  /** On consistent input the last span of the output so far carries the sign and the end
      of an input span that starts no earlier. */
  lemma {:induction false} ConsistentLast(s: seq<CallSign>) returns (k: nat)
    requires Consistent(s)
    ensures var out := Compacted(s); out != [] ==>
      var last := out[|out| - 1];
      k < |s| && Live(s[k]) && s[k].sign == last.sign && s[k].to == last.to && last.from <= s[k].from
  {
    hide Step, NormalForm;
    k := 0;
    if s != [] {
      var m := |s| - 1;
      ConsistentPrefix(s);
      k := ConsistentLast(s[..m]);
      var out, r := Compacted(s[..m]), Compacted(s);
      assert r == Step(out, s[m]);
      assert out != [] ==> s[k] == s[..m][k];
      StepLast(out, s[m]);
      if r != [] && (out == [] || r[|r| - 1] != out[|out| - 1]) {
        k := m;
      }
    }
  }

  lemma {:induction false} ConsistentKeeps(s: seq<CallSign>, sign: string, d: int)
    requires Consistent(s) && Held(s, sign, d) && sign != ""
    ensures Held(Compacted(s), sign, d)
  {
    hide Step, NormalForm;
    var m := |s| - 1;
    var t := s[..m];
    ConsistentPrefix(s);
    CompactedNormal(t);
    var k := ConsistentLast(t);
    var i :| 0 <= i < |s| && s[i].sign == sign && Covers(s[i], d);
    if i < m {
      assert t[i].sign == sign && Covers(t[i], d);
      ConsistentKeeps(t, sign, d);
    }
    StepKeepsFacts(Compacted(t), s[m], sign, d);
  }

  /** On consistent input, exactly the facts with a parseable sign are kept. */
  lemma CompactedKeepsFacts(s: seq<CallSign>, sign: string, d: int)
    requires Consistent(s)
    ensures Held(Compacted(s), sign, d) <==> sign != "" && Held(s, sign, d)
  {
    if Held(Compacted(s), sign, d) {
      CompactedInventsNothing(s, sign, d);
      CompactedNormal(s);
    }
    if sign != "" && Held(s, sign, d) {
      ConsistentKeeps(s, sign, d);
    }
  }

  // ---------------------------------------------------------------- canonicity

  lemma HeadStart(a: seq<CallSign>, b: seq<CallSign>)
    requires NormalForm(a) && NormalForm(b) && SameFacts(a, b) && a != []
    ensures b != [] && b[0].from <= a[0].from && (b[0].from == a[0].from ==> b[0].sign == a[0].sign)
  {
    var d: int := if a[0].from == OPEN then -1 else a[0].from;
    assert Live(a[0]) && Covers(a[0], d);
    assert Held(a, a[0].sign, d);
    assert Held(b, a[0].sign, d);
    var k :| 0 <= k < |b| && b[k].sign == a[0].sign && Covers(b[k], d);
    if k > 0 { NormalOrder(b, 0, k); }
  }

  /** A later span of the head's sign starts strictly after the head ends. */
  lemma NextStart(a: seq<CallSign>, k: nat)
    requires NormalForm(a) && 0 < k < |a| && a[k].sign == a[0].sign
    ensures a[0].to != OPEN && a[k].from > a[0].to
  {
    assert Follows(a[0], a[1]);
    if k > 1 {
      NormalOrder(a, 1, k);
      assert Live(a[1]);
    }
  }

  lemma HeadEnd(a: seq<CallSign>, b: seq<CallSign>)
    requires NormalForm(a) && NormalForm(b) && SameFacts(a, b) && a != [] && b != []
    requires a[0].from == b[0].from && a[0].sign == b[0].sign
    requires a[0].to != OPEN
    ensures b[0].to != OPEN && b[0].to <= a[0].to
  {
    if b[0].to == OPEN || b[0].to > a[0].to {
      var d: int := a[0].to;
      assert Live(a[0]) && Live(b[0]);
      assert Covers(b[0], d);
      assert Held(b, a[0].sign, d);
      assert Held(a, a[0].sign, d);
      var k :| 0 <= k < |a| && a[k].sign == a[0].sign && Covers(a[k], d);
      NextStart(a, k);
    }
  }

  lemma TailFacts(a: seq<CallSign>, sign: string, d: int)
    requires NormalForm(a) && a != []
    ensures NormalForm(a[1..])
    ensures Held(a[1..], sign, d) <==> a[0].to != OPEN && d >= a[0].to && Held(a, sign, d)
  {
    forall i | 0 < i < |a[1..]| ensures Follows(a[1..][i - 1], a[1..][i]) {
      assert Follows(a[i], a[i + 1]);
    }
    if Held(a[1..], sign, d) {
      var i :| 0 <= i < |a[1..]| && a[1..][i].sign == sign && Covers(a[1..][i], d);
      NormalOrder(a, 0, i + 1);
      assert a[i + 1].sign == sign && Covers(a[i + 1], d);
    }
    if a[0].to != OPEN && d >= a[0].to && Held(a, sign, d) {
      var i :| 0 <= i < |a| && a[i].sign == sign && Covers(a[i], d);
      assert a[1..][i - 1].sign == sign && Covers(a[1..][i - 1], d);
    }
  }

  /** Normal forms are canonical: the facts determine the list. */
  lemma {:induction false} NormalUnique(a: seq<CallSign>, b: seq<CallSign>)
    requires NormalForm(a) && NormalForm(b) && SameFacts(a, b)
    ensures a == b
  {
    if a == [] || b == [] {
      if a != [] { HeadStart(a, b); }
      if b != [] { HeadStart(b, a); }
    } else {
      HeadStart(a, b);
      HeadStart(b, a);
      if a[0].to != OPEN { HeadEnd(a, b); }
      if b[0].to != OPEN { HeadEnd(b, a); }
      assert a[0] == b[0];
      forall sign, d ensures Held(a[1..], sign, d) <==> Held(b[1..], sign, d) {
        TailFacts(a, sign, d);
        TailFacts(b, sign, d);
      }
      TailFacts(a, "", 0);
      TailFacts(b, "", 0);
      NormalUnique(a[1..], b[1..]);
      assert a == [a[0]] + a[1..] && b == [b[0]] + b[1..];
    }
  }

  /** `compact` computes a canonical form of consistent input. */
  lemma CompactedCanonical(s: seq<CallSign>, t: seq<CallSign>)
    requires Consistent(s) && Consistent(t)
    requires forall sign, d | sign != "" :: Held(s, sign, d) <==> Held(t, sign, d)
    ensures Compacted(s) == Compacted(t)
  {
    CompactedNormal(s);
    CompactedNormal(t);
    forall sign, d ensures Held(Compacted(s), sign, d) <==> Held(Compacted(t), sign, d) {
      CompactedKeepsFacts(s, sign, d);
      CompactedKeepsFacts(t, sign, d);
    }
    NormalUnique(Compacted(s), Compacted(t));
  }
}
