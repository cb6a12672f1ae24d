/** FCC call-sign history (cmd/station-data/main.go, `spansFromHistory`). */
module History {
  import opened Spans
  import opened Sorting

  datatype HistoryRow = HistoryRow(seqNo: int, sign: string, begin: Date)

  function BySeq(): (HistoryRow, HistoryRow) -> bool {
    (x: HistoryRow, y: HistoryRow) => x.seqNo <= y.seqNo
  }

  // ---------------------------------------------------------------- the rule

  /** The first row counts whatever its date; a later row counts only if it is dated. */
  ghost predicate Eligible(rows: seq<HistoryRow>, r: HistoryRow) {
    r in rows && (r.begin != OPEN || forall q :: q in rows ==> r.seqNo <= q.seqNo)
  }

  predicate BeginsBy(r: HistoryRow, d: int) {
    r.begin == OPEN || r.begin <= d
  }

  /** The row in force on day `d`: the last-filed eligible row that begins by then, or, before
      all of them, the one that begins first (the last-filed among equals). */
  ghost predicate InForce(rows: seq<HistoryRow>, r: HistoryRow, d: int) {
    && Eligible(rows, r)
    && if BeginsBy(r, d)
       then forall q :: Eligible(rows, q) && BeginsBy(q, d) ==> q.seqNo <= r.seqNo
       else forall q :: Eligible(rows, q) ==>
              !BeginsBy(q, d) && (r.begin < q.begin || (r.begin == q.begin && q.seqNo <= r.seqNo))
  }

  ghost predicate DistinctSeq(rows: seq<HistoryRow>) {
    forall q, r :: q in rows && r in rows && q.seqNo == r.seqNo ==> q == r
  }

  // ---------------------------------------------------------------- the stack

  function Pop(kept: seq<HistoryRow>, begin: Date): seq<HistoryRow> {
    if kept != [] && kept[|kept| - 1].begin >= begin then Pop(kept[..|kept| - 1], begin) else kept
  }

  /** The correction stack after the rows have been read in order. */
  function Kept(rows: seq<HistoryRow>): seq<HistoryRow> {
    if rows == [] then []
    else
      var n := |rows| - 1;
      var row := rows[n];
      if n > 0 && row.begin == OPEN then Kept(rows[..n])
      else if n > 0 then Pop(Kept(rows[..n]), row.begin) + [row]
      else [row]
  }

  function SpanAt(kept: seq<HistoryRow>, norm: string -> string, i: nat): CallSign
    requires i < |kept|
  {
    CallSign(norm(kept[i].sign),
             if i == 0 then OPEN else kept[i].begin,
             if i + 1 < |kept| then kept[i + 1].begin else OPEN)
  }

  function SpansOf(kept: seq<HistoryRow>, norm: string -> string): seq<CallSign> {
    seq(|kept|, i requires 0 <= i < |kept| => SpanAt(kept, norm, i))
  }

  function HistorySpans(rows: seq<HistoryRow>, current: string, norm: string -> string): seq<CallSign> {
    var kept := Kept(rows);
    Compacted(if kept == [] then [CallSign(norm(current), OPEN, OPEN)] else SpansOf(kept, norm))
  }

  /** `rows` is sorted first; `ordered` is that sorted slice, which the caller also sees. */
  method SpansFromHistory(rows: seq<HistoryRow>, current: string, norm: string -> string)
    returns (spans: seq<CallSign>, ordered: seq<HistoryRow>)
    ensures SortedBy(ordered, BySeq()) && multiset(ordered) == multiset(rows)
    ensures forall r :: r in ordered <==> r in rows
    ensures spans == HistorySpans(ordered, current, norm)
    ensures NormalForm(spans)
  {
    ordered := SortSlice(rows, BySeq());
    var kept: seq<HistoryRow> := [];
    for i := 0 to |ordered|
      invariant kept == Kept(ordered[..i])
    {
      var row := ordered[i];
      assert ordered[..i + 1][..i] == ordered[..i];
      if i > 0 && row.begin == OPEN {
        continue;
      }
      ghost var before := kept;
      var n := |kept|;
      while i > 0 && n > 0 && kept[n - 1].begin >= row.begin
        invariant n == |kept|
        invariant Pop(kept, row.begin) == Pop(before, row.begin)
        invariant i == 0 ==> kept == before
      {
        kept := kept[..n - 1];
        n := |kept|;
      }
      kept := kept + [row];
    }
    assert ordered[..|ordered|] == ordered;
    spans := [];
    for i := 0 to |kept|
      invariant |spans| == i
      invariant forall k :: 0 <= k < i ==>
        (spans[k] == if k + 1 < i then SpanAt(kept, norm, k) else SpanAt(kept, norm, k).(to := OPEN))
    {
      var row := kept[i];
      var from := if i == 0 then OPEN else row.begin;
      var n := |spans|;
      if n > 0 {
        spans := spans[n - 1 := spans[n - 1].(to := from)];
      }
      spans := spans + [CallSign(norm(row.sign), from, OPEN)];
    }
    assert spans == SpansOf(kept, norm);
    if |spans| == 0 {
      spans := [CallSign(norm(current), OPEN, OPEN)];
    }
    spans := CompactSlice(spans);
  }

  // ---------------------------------------------------------------- the stack meets the rule

  ghost predicate Increasing(kept: seq<HistoryRow>) {
    forall i, j :: 0 <= i < j < |kept| ==> kept[i].begin < kept[j].begin && kept[i].seqNo < kept[j].seqNo
  }

  /** `r` was filed no earlier than `q` and begins no later. */
  predicate Supersedes(r: HistoryRow, q: HistoryRow) {
    r == q || (r.begin <= q.begin && q.seqNo < r.seqNo)
  }

  ghost predicate Dominated(kept: seq<HistoryRow>, q: HistoryRow) {
    exists k :: 0 <= k < |kept| && Supersedes(kept[k], q)
  }

  /** The rows that count, by position. */
  predicate Counts(rows: seq<HistoryRow>, i: nat)
    requires i < |rows|
  {
    i == 0 || rows[i].begin != OPEN
  }

  ghost predicate StrictlySorted(rows: seq<HistoryRow>) {
    forall i, j :: 0 <= i < j < |rows| ==> rows[i].seqNo < rows[j].seqNo
  }

  lemma {:induction false} PopCut(kept: seq<HistoryRow>, begin: Date)
    requires Increasing(kept)
    ensures Pop(kept, begin) <= kept
    ensures forall i :: 0 <= i < |Pop(kept, begin)| ==> kept[i].begin < begin
    ensures forall i :: |Pop(kept, begin)| <= i < |kept| ==> kept[i].begin >= begin
  {
    if kept != [] && kept[|kept| - 1].begin >= begin {
      PopCut(kept[..|kept| - 1], begin);
    }
  }

  ghost predicate CountedIn(rows: seq<HistoryRow>, r: HistoryRow) {
    exists i :: 0 <= i < |rows| && rows[i] == r && Counts(rows, i)
  }

  /** What the stack is after the rows so far: counted rows only, in order, and every counted
      row superseded by one of them. */
  ghost predicate Stacked(kept: seq<HistoryRow>, rows: seq<HistoryRow>) {
    && Increasing(kept)
    && (forall k :: 0 <= k < |kept| ==> CountedIn(rows, kept[k]))
    && (forall q :: CountedIn(rows, q) ==> Dominated(kept, q))
  }

  lemma CountedExtends(init: seq<HistoryRow>, row: HistoryRow, q: HistoryRow)
    requires init != []
    ensures CountedIn(init + [row], q) <==> CountedIn(init, q) || (q == row && row.begin != OPEN)
  {
    var rows := init + [row];
    if CountedIn(init, q) {
      var i :| 0 <= i < |init| && init[i] == q && Counts(init, i);
      assert rows[i] == q && Counts(rows, i);
    }
    if q == row && row.begin != OPEN {
      assert rows[|init|] == q && Counts(rows, |init|);
    }
    if CountedIn(rows, q) {
      var i :| 0 <= i < |rows| && rows[i] == q && Counts(rows, i);
      assert i < |init| ==> init[i] == q && Counts(init, i);
    }
  }

  lemma StackPush(was: seq<HistoryRow>, init: seq<HistoryRow>, row: HistoryRow)
    requires Stacked(was, init) && init != [] && row.begin != OPEN
    requires forall q :: q in init ==> q.seqNo < row.seqNo
    ensures Stacked(Pop(was, row.begin) + [row], init + [row])
  {
    hide Pop, Counts, CountedIn, Dominated;
    PopCut(was, row.begin);
    var cut := Pop(was, row.begin);
    var kept := cut + [row];
    assert cut == was[..|cut|];
    forall k | 0 <= k < |kept| ensures CountedIn(init + [row], kept[k]) {
      CountedExtends(init, row, kept[k]);
    }
    forall i | 0 <= i < |cut| ensures cut[i].begin < row.begin && cut[i].seqNo < row.seqNo {
      assert cut[i] == was[i];
      CountedIsIn(init, was[i]);
    }
    IncreasingPush(was, |cut|, row);
    forall q | CountedIn(init + [row], q) ensures Dominated(kept, q) {
      CountedExtends(init, row, q);
      if q != row { CountedIsIn(init, q); }
      DominatedPush(was, |cut|, row, q);
    }
  }

  lemma IncreasingPush(was: seq<HistoryRow>, n: nat, row: HistoryRow)
    requires Increasing(was) && n <= |was|
    requires forall i :: 0 <= i < n ==> was[..n][i].begin < row.begin && was[..n][i].seqNo < row.seqNo
    ensures Increasing(was[..n] + [row])
  {
    var kept := was[..n] + [row];
    forall i, j | 0 <= i < j < |kept| ensures kept[i].begin < kept[j].begin && kept[i].seqNo < kept[j].seqNo {
      assert kept[i] == was[..n][i] == was[i];
      assert j < n ==> kept[j] == was[j];
    }
  }

  lemma CountedIsIn(rows: seq<HistoryRow>, q: HistoryRow)
    requires CountedIn(rows, q)
    ensures q in rows
  {
  }

  /** What the popped rows superseded, the new row supersedes. */
  lemma DominatedPush(was: seq<HistoryRow>, n: nat, row: HistoryRow, q: HistoryRow)
    requires n <= |was| && forall i :: n <= i < |was| ==> was[i].begin >= row.begin
    requires q == row || (q.seqNo < row.seqNo && Dominated(was, q))
    ensures Dominated(was[..n] + [row], q)
  {
    var kept := was[..n] + [row];
    if q == row {
      assert Supersedes(kept[n], q);
    } else {
      var k :| 0 <= k < |was| && Supersedes(was[k], q);
      assert if k < n then Supersedes(kept[k], q) else Supersedes(kept[n], q);
    }
  }

  lemma {:induction false} KeptInvariant(rows: seq<HistoryRow>)
    requires StrictlySorted(rows)
    ensures Stacked(Kept(rows), rows)
  {
    if |rows| == 1 {
      assert Kept(rows) == rows;
      assert Counts(rows, 0) && Supersedes(rows[0], rows[0]);
    } else if |rows| > 1 {
      var n := |rows| - 1;
      var init, row := rows[..n], rows[n];
      KeptInvariant(init);
      assert rows == init + [row];
      if row.begin != OPEN {
        StackPush(Kept(init), init, row);
      } else {
        forall q ensures CountedIn(rows, q) <==> CountedIn(init, q) { CountedExtends(init, row, q); }
      }
    }
  }

  /** Positions and the order-free rule agree on which rows count. */
  lemma EligibleCounts(rows: seq<HistoryRow>, r: HistoryRow)
    requires StrictlySorted(rows)
    ensures Eligible(rows, r) <==> CountedIn(rows, r)
  {
    if Eligible(rows, r) {
      var i :| 0 <= i < |rows| && rows[i] == r;
      assert rows[0] in rows;
      assert Counts(rows, i);
    }
    if i :| 0 <= i < |rows| && rows[i] == r && Counts(rows, i) {
      forall q | q in rows && r.begin == OPEN ensures r.seqNo <= q.seqNo {
        var j :| 0 <= j < |rows| && rows[j] == q;
        assert i == 0;
      }
    }
  }

  /** The index of the stack entry whose span covers day `d`. */
  lemma {:induction false} CoveringIndex(kept: seq<HistoryRow>, d: int) returns (k: nat)
    requires Increasing(kept) && kept != []
    ensures k < |kept|
    ensures forall i :: 0 < i <= k ==> kept[i].begin <= d
    ensures forall i :: k < i < |kept| ==> d < kept[i].begin
  {
    k := |kept| - 1;
    if k > 0 && d < kept[k].begin {
      k := CoveringIndex(kept[..k], d);
    }
  }

  /** The entry that covers day `d` beats every row the stack dominates. */
  lemma CoveringBeats(kept: seq<HistoryRow>, k: nat, d: int, q: HistoryRow)
    requires Increasing(kept) && k < |kept| && Dominated(kept, q)
    requires forall i :: k < i < |kept| ==> d < kept[i].begin
    ensures var r := kept[k];
      && (BeginsBy(r, d) && BeginsBy(q, d) ==> q.seqNo <= r.seqNo)
      && (!BeginsBy(r, d) && k == 0 ==>
            !BeginsBy(q, d) && (r.begin < q.begin || (r.begin == q.begin && q.seqNo <= r.seqNo)))
  {
    var r := kept[k];
    var i :| 0 <= i < |kept| && Supersedes(kept[i], q);
    assert i < k ==> kept[i].begin < r.begin && kept[i].seqNo < r.seqNo;
    assert k < i ==> r.begin < kept[i].begin && d < kept[i].begin;
  }

  lemma CoveringInForce(rows: seq<HistoryRow>, d: int) returns (k: nat)
    requires StrictlySorted(rows) && rows != []
    ensures var kept := Kept(rows); k < |kept| && InForce(rows, kept[k], d)
    ensures forall i :: 0 < i <= k ==> Kept(rows)[i].begin <= d
    ensures forall i :: k < i < |Kept(rows)| ==> d < Kept(rows)[i].begin
  {
    hide Kept, StrictlySorted;
    var kept := Kept(rows);
    KeptInvariant(rows);
    assert Counts(rows, 0) && CountedIn(rows, rows[0]) && Dominated(kept, rows[0]);
    k := CoveringIndex(kept, d);
    EligibleCounts(rows, kept[k]);
    hide Eligible, Increasing, Dominated;
    forall q | Eligible(rows, q)
      ensures BeginsBy(kept[k], d) && BeginsBy(q, d) ==> q.seqNo <= kept[k].seqNo
      ensures !BeginsBy(kept[k], d) ==>
        !BeginsBy(q, d) && (kept[k].begin < q.begin || (kept[k].begin == q.begin && q.seqNo <= kept[k].seqNo))
    {
      EligibleCounts(rows, q);
      CoveringBeats(kept, k, d, q);
    }
  }

  /** The spans of a stack hold, on day `d`, the sign of the entry that covers it. */
  lemma StackFacts(kept: seq<HistoryRow>, norm: string -> string, k: nat, sign: string, d: int)
    requires Increasing(kept) && k < |kept|
    requires forall i :: 0 < i <= k ==> kept[i].begin <= d
    requires forall i :: k < i < |kept| ==> d < kept[i].begin
    ensures Held(Compacted(SpansOf(kept, norm)), sign, d) <==> sign != "" && sign == norm(kept[k].sign)
  {
    var spans := SpansOf(kept, norm);
    assert spans[k].sign == norm(kept[k].sign) && Covers(spans[k], d);
    forall i | 0 <= i < |spans| && i != k ensures !Covers(spans[i], d) {
      if i < k { assert spans[i].to == kept[i + 1].begin; }
    }
    CompactedKeepsFacts(spans, sign, d);
  }

  lemma InForceUnique(rows: seq<HistoryRow>, q: HistoryRow, r: HistoryRow, d: int)
    requires DistinctSeq(rows) && InForce(rows, q, d) && InForce(rows, r, d)
    ensures q == r
  {
  }

  /** Distinctness survives reordering. */
  lemma DistinctPermutation<T>(a: seq<T>, b: seq<T>)
    requires multiset(a) == multiset(b)
    requires forall i, j :: 0 <= i < j < |a| ==> a[i] != a[j]
    ensures forall i, j :: 0 <= i < j < |b| ==> b[i] != b[j]
  {
    forall i, j | 0 <= i < j < |b| ensures b[i] != b[j] {
      if b[i] == b[j] {
        var x := b[i];
        assert b == b[..i] + [x] + b[i + 1..j] + [x] + b[j + 1..];
        assert multiset(b)[x] >= 2;
        assert multiset(a)[x] >= 2;
        AtMostOnce(a, x);
        assert false;
      }
    }
  }

  lemma {:induction false} AtMostOnce<T>(a: seq<T>, x: T)
    requires forall i, j :: 0 <= i < j < |a| ==> a[i] != a[j]
    ensures multiset(a)[x] <= 1
  {
    if a != [] {
      AtMostOnce(a[1..], x);
      assert a == [a[0]] + a[1..];
      if a[0] == x {
        assert x !in a[1..];
        assert multiset(a[1..])[x] == 0;
      }
    }
  }

  lemma InForceReordered(rows: seq<HistoryRow>, ordered: seq<HistoryRow>, r: HistoryRow, d: int)
    requires forall q :: q in ordered <==> q in rows
    ensures InForce(rows, r, d) <==> InForce(ordered, r, d)
  {
    forall q ensures Eligible(rows, q) <==> Eligible(ordered, q) {
    }
  }

  lemma SortingIsStrict(rows: seq<HistoryRow>, ordered: seq<HistoryRow>)
    requires forall i, j :: 0 <= i < j < |rows| ==> rows[i].seqNo != rows[j].seqNo
    requires SortedBy(ordered, BySeq()) && multiset(ordered) == multiset(rows)
    ensures StrictlySorted(ordered) && DistinctSeq(rows)
    ensures forall q :: q in ordered <==> q in rows
  {
    assert forall x :: x in ordered <==> x in multiset(ordered);
    assert forall x :: x in rows <==> x in multiset(rows);
    DistinctPermutation(rows, ordered);
    forall i, j | 0 <= i < j < |ordered| ensures ordered[i].seqNo < ordered[j].seqNo {
      assert BySeq()(ordered[i], ordered[j]);
      assert ordered[i] in rows && ordered[j] in rows;
    }
  }

  /** The correction stack refines the rule: on every day the result names the sign of the row
      in force, and nothing when that row's sign cannot be parsed.  `rows` is the history in any
      order, `ordered` any sorting of it. */
  lemma HistoryFollowsRule(rows: seq<HistoryRow>, ordered: seq<HistoryRow>, current: string,
                           norm: string -> string, sign: string, d: int)
    requires rows != [] && (forall i, j :: 0 <= i < j < |rows| ==> rows[i].seqNo != rows[j].seqNo)
    requires SortedBy(ordered, BySeq()) && multiset(ordered) == multiset(rows)
    ensures exists r :: InForce(rows, r, d)
    ensures Held(HistorySpans(ordered, current, norm), sign, d)
       <==> sign != "" && exists r :: InForce(rows, r, d) && norm(r.sign) == sign
  {
    SortingIsStrict(rows, ordered);
    var kept := Kept(ordered);
    var k := CoveringInForce(ordered, d);
    InForceReordered(rows, ordered, kept[k], d);
    forall r | InForce(rows, r, d) ensures r == kept[k] { InForceUnique(rows, r, kept[k], d); }
    KeptInvariant(ordered);
    StackFacts(kept, norm, k, sign, d);
  }

  /** With no rows the current sign is held for ever. */
  lemma NoHistory(current: string, norm: string -> string, sign: string, d: int)
    ensures Held(HistorySpans([], current, norm), sign, d) <==> sign != "" && sign == norm(current)
  {
    var s := [CallSign(norm(current), OPEN, OPEN)];
    assert s[0].sign == norm(current) && Covers(s[0], d);
    CompactedKeepsFacts(s, sign, d);
  }
}
