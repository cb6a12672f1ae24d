/** Settling tenures a Class A station shares with a full-power one (cmd/station-data/main.go,
  `subtract`, `sharesTenure` and `preferFullPower`). */
module FullPower {
  import opened Common
  import opened Spans

  datatype Station = Station(id: string, callSigns: seq<CallSign>)

  datatype Facility = Facility(classA: bool)

  // ---------------------------------------------------------------- shared tenures

  /** Non-empty spans overlap exactly when they have a day in common. */
  lemma OverlapIsACommonDay(x: CallSign, y: CallSign)
    requires NonEmpty(x) && NonEmpty(y)
    ensures Overlaps(x, y) <==> exists d :: Covers(x, d) && Covers(y, d)
  {
    if Overlaps(x, y) {
      var start: int := if x.from > y.from then x.from else y.from;
      var d := if start == OPEN then -1 else start;
      assert Covers(x, d) && Covers(y, d);
    }
  }

  ghost predicate Shares(a: seq<CallSign>, b: seq<CallSign>) {
    exists i, j :: 0 <= i < |a| && 0 <= j < |b| && a[i].sign == b[j].sign && Overlaps(a[i], b[j])
  }

  method SharesTenure(a: seq<CallSign>, b: seq<CallSign>) returns (shared: bool)
    ensures shared <==> Shares(a, b)
  {
    for i := 0 to |a|
      invariant forall p, q :: 0 <= p < i && 0 <= q < |b| && a[p].sign == b[q].sign ==> !Overlaps(a[p], b[q])
    {
      for j := 0 to |b|
        invariant forall q :: 0 <= q < j && a[i].sign == b[q].sign ==> !Overlaps(a[i], b[q])
      {
        if a[i].sign == b[j].sign && Overlaps(a[i], b[j]) {
          return true;
        }
      }
    }
    return false;
  }

  /** A sign and a day that both histories hold make a shared tenure, and when every span has a
      day a shared tenure has such a day. */
  lemma SharesMeaning(a: seq<CallSign>, b: seq<CallSign>)
    ensures (exists sign, d :: Held(a, sign, d) && Held(b, sign, d)) ==> Shares(a, b)
    ensures Shares(a, b) && (forall x :: x in a + b ==> NonEmpty(x)) ==>
      exists sign, d :: Held(a, sign, d) && Held(b, sign, d)
  {
    if sign, d :| Held(a, sign, d) && Held(b, sign, d) {
      var p :| 0 <= p < |a| && a[p].sign == sign && Covers(a[p], d);
      var q :| 0 <= q < |b| && b[q].sign == sign && Covers(b[q], d);
      assert Overlaps(a[p], b[q]);
    }
    if Shares(a, b) && (forall x :: x in a + b ==> NonEmpty(x)) {
      var i, j :| 0 <= i < |a| && 0 <= j < |b| && a[i].sign == b[j].sign && Overlaps(a[i], b[j]);
      assert a[i] in a + b && b[j] in a + b;
      OverlapIsACommonDay(a[i], b[j]);
      var d :| Covers(a[i], d) && Covers(b[j], d);
      assert Held(a, a[i].sign, d) && Held(b, a[i].sign, d);
    }
  }

  // ---------------------------------------------------------------- subtract

  function Cut(p: CallSign, t: CallSign): seq<CallSign> {
    if !Overlaps(p, t) then [p]
    else
      (if t.from != OPEN && (p.from == OPEN || p.from < t.from) then [p.(to := t.from)] else []) +
      (if t.to != OPEN && (p.to == OPEN || t.to < p.to) then [p.(from := t.to)] else [])
  }

  function CutAll(pieces: seq<CallSign>, t: CallSign): seq<CallSign> {
    if pieces == [] then [] else CutAll(pieces[..|pieces| - 1], t) + Cut(pieces[|pieces| - 1], t)
  }

  function Subtracted(c: CallSign, taken: seq<CallSign>): seq<CallSign> {
    if taken == [] then [c] else CutAll(Subtracted(c, taken[..|taken| - 1]), taken[|taken| - 1])
  }

  /** One pass of the outer loop of `subtract`. */
  method CutEach(pieces: seq<CallSign>, t: CallSign) returns (next: seq<CallSign>)
    ensures next == CutAll(pieces, t)
  {
    next := [];
    for j := 0 to |pieces|
      invariant next == CutAll(pieces[..j], t)
    {
      var p := pieces[j];
      ghost var was := next;
      assert pieces[..j + 1][..j] == pieces[..j];
      assert CutAll(pieces[..j + 1], t) == was + Cut(p, t);
      if !Overlaps(p, t) {
        next := next + [p];
        continue;
      }
      if t.from != OPEN && (p.from == OPEN || p.from < t.from) {
        next := next + [CallSign(p.sign, p.from, t.from)];
      }
      if t.to != OPEN && (p.to == OPEN || t.to < p.to) {
        next := next + [CallSign(p.sign, t.to, p.to)];
      }
      assert next == was + Cut(p, t);
    }
    assert pieces[..|pieces|] == pieces;
  }

  method Subtract(c: CallSign, taken: seq<CallSign>) returns (pieces: seq<CallSign>)
    ensures pieces == Subtracted(c, taken)
  {
    pieces := [c];
    for i := 0 to |taken|
      invariant pieces == Subtracted(c, taken[..i])
    {
      assert taken[..i + 1][..i] == taken[..i];
      pieces := CutEach(pieces, taken[i]);
    }
    assert taken[..|taken|] == taken;
  }

  ghost predicate Taken(taken: seq<CallSign>, d: int) {
    exists t :: t in taken && Covers(t, d)
  }

  lemma CutFacts(p: CallSign, t: CallSign, sign: string, d: int)
    ensures Held(Cut(p, t), sign, d) <==> p.sign == sign && Covers(p, d) && !Covers(t, d)
  {
    HeldOne(p, sign, d);
    if Overlaps(p, t) {
      HeldOne(p.(to := t.from), sign, d);
      HeldOne(p.(from := t.to), sign, d);
      HeldConcat(if t.from != OPEN && (p.from == OPEN || p.from < t.from) then [p.(to := t.from)] else [],
                 if t.to != OPEN && (p.to == OPEN || t.to < p.to) then [p.(from := t.to)] else [], sign, d);
    }
  }

  lemma {:induction false} CutAllFacts(pieces: seq<CallSign>, t: CallSign, sign: string, d: int)
    ensures Held(CutAll(pieces, t), sign, d) <==> Held(pieces, sign, d) && !Covers(t, d)
  {
    hide Held, Covers, Cut;
    if pieces == [] {
      HeldNothing(sign, d);
    } else {
      var n := |pieces| - 1;
      CutAllFacts(pieces[..n], t, sign, d);
      CutFacts(pieces[n], t, sign, d);
      HeldConcat(CutAll(pieces[..n], t), Cut(pieces[n], t), sign, d);
      assert pieces == pieces[..n] + [pieces[n]];
      HeldConcat(pieces[..n], [pieces[n]], sign, d);
      HeldOne(pieces[n], sign, d);
    }
  }

  /** The pieces denote exactly the set difference, for any spans at all. */
  lemma {:induction false} SubtractFacts(c: CallSign, taken: seq<CallSign>, sign: string, d: int)
    ensures Held(Subtracted(c, taken), sign, d) <==> c.sign == sign && Covers(c, d) && !Taken(taken, d)
  {
    hide Held, Covers, CutAll;
    if taken == [] {
      HeldOne(c, sign, d);
    } else {
      var n := |taken| - 1;
      SubtractFacts(c, taken[..n], sign, d);
      CutAllFacts(Subtracted(c, taken[..n]), taken[n], sign, d);
      assert taken == taken[..n] + [taken[n]];
    }
  }

  /** `x` ends at least a day before `y` starts. */
  predicate Apart(x: CallSign, y: CallSign) {
    x.to != OPEN && x.to < y.from
  }

  /** Non-empty spans in order, with at least a day between any two. */
  ghost predicate Gapped(s: seq<CallSign>) {
    && (forall i :: 0 <= i < |s| ==> NonEmpty(s[i]))
    && Pairwise(s, Apart)
  }

  lemma GappedConcat(a: seq<CallSign>, b: seq<CallSign>)
    requires Gapped(a) && Gapped(b)
    requires forall x, y :: x in a && y in b ==> Apart(x, y)
    ensures Gapped(a + b)
  {
    PairwiseConcat(a, b, Apart);
  }

  /** Every span of `r` is part of some span of `s`. */
  ghost predicate PartsOf(r: seq<CallSign>, s: seq<CallSign>) {
    forall x :: x in r ==> exists y :: y in s && Within(x, y)
  }

  /** `p` is a part of `c`. */
  predicate Within(p: CallSign, c: CallSign) {
    p.sign == c.sign && c.from <= p.from && (c.to == OPEN || (p.to != OPEN && p.to <= c.to))
  }

  lemma CutGapped(p: CallSign, t: CallSign)
    requires NonEmpty(p) && NonEmpty(t)
    ensures Gapped(Cut(p, t)) && forall x :: x in Cut(p, t) ==> Within(x, p)
  {
  }

  lemma CutAllStep(pieces: seq<CallSign>, p: CallSign, t: CallSign)
    requires Gapped(pieces + [p]) && NonEmpty(t)
    requires Gapped(CutAll(pieces, t)) && PartsOf(CutAll(pieces, t), pieces)
    ensures Gapped(CutAll(pieces, t) + Cut(p, t)) && PartsOf(CutAll(pieces, t) + Cut(p, t), pieces + [p])
  {
    var a, b, s := CutAll(pieces, t), Cut(p, t), pieces + [p];
    assert s[|pieces|] == p;
    CutGapped(p, t);
    forall x, y | x in a && y in b ensures Apart(x, y) {
      var z :| z in pieces && Within(x, z);
      var i :| 0 <= i < |pieces| && pieces[i] == z;
      assert Apart(s[i], s[|pieces|]);
    }
    GappedConcat(a, b);
    forall x | x in a + b ensures exists y :: y in s && Within(x, y) {
      if x in a {
        var y :| y in pieces && Within(x, y);
        assert y in s;
      } else {
        assert p in s && Within(x, p);
      }
    }
  }

  lemma {:induction false} CutAllGapped(pieces: seq<CallSign>, t: CallSign)
    requires Gapped(pieces) && NonEmpty(t)
    ensures Gapped(CutAll(pieces, t)) && PartsOf(CutAll(pieces, t), pieces)
  {
    if pieces != [] {
      var n := |pieces| - 1;
      CutAllGapped(pieces[..n], t);
      assert pieces == pieces[..n] + [pieces[n]];
      CutAllStep(pieces[..n], pieces[n], t);
    }
  }

  /** When every span involved has a day, the pieces are non-empty parts of `c`, in order and
      pairwise apart. */
  lemma {:induction false} SubtractGapped(c: CallSign, taken: seq<CallSign>)
    requires NonEmpty(c) && forall t :: t in taken ==> NonEmpty(t)
    ensures Gapped(Subtracted(c, taken)) && forall x :: x in Subtracted(c, taken) ==> Within(x, c)
  {
    if taken != [] {
      var n := |taken| - 1;
      var pieces := Subtracted(c, taken[..n]);
      SubtractGapped(c, taken[..n]);
      CutAllGapped(pieces, taken[n]);
      forall x | x in Subtracted(c, taken) ensures Within(x, c) {
        var y :| y in pieces && Within(x, y);
      }
    }
  }

  /** The exact condition, for one cut: the pieces of a span that has a day stay in order and apart
      exactly when the taken span has a day too or does not reach it.  Taken spans come from
      histories in normal form, whose spans all have a day. */
  lemma CutGappedExactly(p: CallSign, t: CallSign)
    requires NonEmpty(p)
    ensures Gapped(Cut(p, t)) <==> !Overlaps(p, t) || NonEmpty(t)
  {
    if NonEmpty(t) {
      CutGapped(p, t);
    } else if Overlaps(p, t) {
      var r := Cut(p, t);
      assert r == [p.(to := t.from), p.(from := t.to)];
      assert !Apart(r[0], r[1]);
    }
  }

  // ---------------------------------------------------------------- preferFullPower

  function TrimPrefix(s: string, prefix: string): string {
    if prefix <= s then s[|prefix|..] else s
  }

  predicate IsClassA(s: Station, facilities: map<string, Facility>) {
    var key := TrimPrefix(s.id, "fcc:");
    key in facilities && facilities[key].classA
  }

  predicate IsFullPower(s: Station, facilities: map<string, Facility>) {
    var key := TrimPrefix(s.id, "fcc:");
    key in facilities && !facilities[key].classA
  }

  function WithSign(spans: seq<CallSign>, sign: string): seq<CallSign> {
    if spans == [] then []
    else
      var n := |spans| - 1;
      WithSign(spans[..n], sign) + if spans[n].sign == sign then [spans[n]] else []
  }

  /** The full-power spans of `sign`, in station order. */
  function FullPowerSpans(stations: seq<Station>, facilities: map<string, Facility>, sign: string): seq<CallSign> {
    if stations == [] then []
    else
      var n := |stations| - 1;
      FullPowerSpans(stations[..n], facilities, sign)
      + if IsFullPower(stations[n], facilities) then WithSign(stations[n].callSigns, sign) else []
  }

  function Remaining(spans: seq<CallSign>, stations: seq<Station>, facilities: map<string, Facility>): seq<CallSign> {
    if spans == [] then []
    else
      var n := |spans| - 1;
      Remaining(spans[..n], stations, facilities)
      + Subtracted(spans[n], FullPowerSpans(stations, facilities, spans[n].sign))
  }

  function Preferred(s: Station, stations: seq<Station>, facilities: map<string, Facility>): Station {
    if IsClassA(s, facilities)
    then s.(callSigns := Compacted(Remaining(s.callSigns, stations, facilities)))
    else s
  }

  function PreferredAll(stations: seq<Station>, facilities: map<string, Facility>): seq<Station> {
    seq(|stations|, i requires 0 <= i < |stations| => Preferred(stations[i], stations, facilities))
  }

  function Lookup<T>(m: map<string, seq<T>>, key: string): seq<T> {
    if key in m then m[key] else []
  }

  ghost predicate Grouped(bySign: map<string, seq<CallSign>>, start: map<string, seq<CallSign>>, spans: seq<CallSign>) {
    forall sign :: Lookup(bySign, sign) == Lookup(start, sign) + WithSign(spans, sign)
  }

  lemma GroupOne(bySign: map<string, seq<CallSign>>, start: map<string, seq<CallSign>>, spans: seq<CallSign>, c: CallSign)
    requires Grouped(bySign, start, spans)
    ensures Grouped(bySign[c.sign := Lookup(bySign, c.sign) + [c]], start, spans + [c])
  {
    forall sign
      ensures Lookup(bySign[c.sign := Lookup(bySign, c.sign) + [c]], sign)
           == Lookup(start, sign) + WithSign(spans + [c], sign)
    {
      GroupOneAt(bySign, start, spans, c, sign);
    }
  }

  lemma GroupOneAt(bySign: map<string, seq<CallSign>>, start: map<string, seq<CallSign>>, spans: seq<CallSign>,
                   c: CallSign, sign: string)
    requires Lookup(bySign, sign) == Lookup(start, sign) + WithSign(spans, sign)
    ensures Lookup(bySign[c.sign := Lookup(bySign, c.sign) + [c]], sign)
         == Lookup(start, sign) + WithSign(spans + [c], sign)
  {
    LookupAfter(bySign, c.sign, Lookup(bySign, c.sign) + [c], sign);
    WithSignSnoc(spans, c, sign);
    hide Lookup, WithSign;
    var a, w := Lookup(start, sign), WithSign(spans, sign);
    assert (a + w) + [c] == a + (w + [c]);
    assert w + [] == w;
  }

  lemma LookupAfter<T>(m: map<string, seq<T>>, key: string, value: seq<T>, other: string)
    ensures Lookup(m[key := value], other) == if other == key then value else Lookup(m, other)
  {
  }

  lemma WithSignSnoc(spans: seq<CallSign>, c: CallSign, sign: string)
    ensures WithSign(spans + [c], sign) == WithSign(spans, sign) + if c.sign == sign then [c] else []
  {
    var all := spans + [c];
    assert all[..|all| - 1] == spans && all[|all| - 1] == c;
  }

  method AppendBySign(start: map<string, seq<CallSign>>, spans: seq<CallSign>)
    returns (bySign: map<string, seq<CallSign>>)
    ensures Grouped(bySign, start, spans)
  {
    bySign := start;
    for j := 0 to |spans|
      invariant Grouped(bySign, start, spans[..j])
    {
      var c := spans[j];
      GroupOne(bySign, start, spans[..j], c);
      assert spans[..j + 1] == spans[..j] + [c];
      bySign := bySign[c.sign := Lookup(bySign, c.sign) + [c]];
    }
    assert spans[..|spans|] == spans;
  }

  /** The full-power spans by sign, as the first loop of `preferFullPower` collects them. */
  method CollectFullPower(stations: seq<Station>, facilities: map<string, Facility>)
    returns (fullPower: map<string, seq<CallSign>>)
    ensures forall sign :: Lookup(fullPower, sign) == FullPowerSpans(stations, facilities, sign)
  {
    fullPower := map[];
    for i := 0 to |stations|
      invariant forall sign :: Lookup(fullPower, sign) == FullPowerSpans(stations[..i], facilities, sign)
    {
      var s := stations[i];
      assert stations[..i + 1][..i] == stations[..i];
      if IsFullPower(s, facilities) {
        fullPower := AppendBySign(fullPower, s.callSigns);
      }
    }
    assert stations[..|stations|] == stations;
  }

  method SubtractTaken(spans: seq<CallSign>, fullPower: map<string, seq<CallSign>>,
                       ghost stations: seq<Station>, facilities: map<string, Facility>)
    returns (kept: seq<CallSign>)
    requires forall sign :: Lookup(fullPower, sign) == FullPowerSpans(stations, facilities, sign)
    ensures kept == Remaining(spans, stations, facilities)
  {
    kept := [];
    for j := 0 to |spans|
      invariant kept == Remaining(spans[..j], stations, facilities)
    {
      var c := spans[j];
      assert spans[..j + 1][..j] == spans[..j];
      var pieces := Subtract(c, Lookup(fullPower, c.sign));
      kept := kept + pieces;
    }
    assert spans[..|spans|] == spans;
  }

  method PreferFullPower(stations: array<Station>, facilities: map<string, Facility>)
    modifies stations
    ensures stations[..] == PreferredAll(old(stations[..]), facilities)
  {
    hide Remaining, FullPowerSpans, Compacted, NormalForm, IsClassA, Lookup;
    ghost var was := stations[..];
    var fullPower := CollectFullPower(stations[..], facilities);
    for i := 0 to stations.Length
      invariant forall k :: i <= k < stations.Length ==> stations[k] == was[k]
      invariant forall k :: 0 <= k < i ==> stations[k] == Preferred(was[k], was, facilities)
    {
      var s := stations[i];
      if IsClassA(s, facilities) {
        var kept := SubtractTaken(s.callSigns, fullPower, was, facilities);
        kept := CompactSlice(kept);
        stations[i] := s.(callSigns := kept);
      }
    }
  }

  ghost predicate AllNormal(stations: seq<Station>) {
    forall i :: 0 <= i < |stations| ==> NormalForm(stations[i].callSigns)
  }

  /** A full-power station holds `sign` on day `d`. */
  ghost predicate FullPowerHolds(stations: seq<Station>, facilities: map<string, Facility>, sign: string, d: int) {
    exists i :: 0 <= i < |stations| && IsFullPower(stations[i], facilities) && Held(stations[i].callSigns, sign, d)
  }

  lemma {:induction false} WithSignMembers(spans: seq<CallSign>, sign: string, c: CallSign)
    ensures c in WithSign(spans, sign) <==> c in spans && c.sign == sign
  {
    if spans != [] {
      var n := |spans| - 1;
      WithSignMembers(spans[..n], sign, c);
      assert spans == spans[..n] + [spans[n]];
    }
  }

  lemma {:induction false} FullPowerMembers(stations: seq<Station>, facilities: map<string, Facility>, sign: string, c: CallSign)
    ensures c in FullPowerSpans(stations, facilities, sign)
       <==> exists i :: 0 <= i < |stations| && IsFullPower(stations[i], facilities) && c in stations[i].callSigns && c.sign == sign
  {
    if stations != [] {
      var n := |stations| - 1;
      FullPowerMembers(stations[..n], facilities, sign, c);
      WithSignMembers(stations[n].callSigns, sign, c);
      assert stations == stations[..n] + [stations[n]];
    }
  }

  lemma TakenByFullPower(stations: seq<Station>, facilities: map<string, Facility>, sign: string, d: int)
    ensures Taken(FullPowerSpans(stations, facilities, sign), d) <==> FullPowerHolds(stations, facilities, sign, d)
  {
    if t :| t in FullPowerSpans(stations, facilities, sign) && Covers(t, d) {
      FullPowerMembers(stations, facilities, sign, t);
    }
    if i :| 0 <= i < |stations| && IsFullPower(stations[i], facilities) && Held(stations[i].callSigns, sign, d) {
      var k :| 0 <= k < |stations[i].callSigns| && stations[i].callSigns[k].sign == sign && Covers(stations[i].callSigns[k], d);
      FullPowerMembers(stations, facilities, sign, stations[i].callSigns[k]);
    }
  }

  lemma {:induction false} RemainingFacts(spans: seq<CallSign>, stations: seq<Station>, facilities: map<string, Facility>,
                                          sign: string, d: int)
    ensures Held(Remaining(spans, stations, facilities), sign, d)
       <==> Held(spans, sign, d) && !FullPowerHolds(stations, facilities, sign, d)
  {
    hide Held, Taken, FullPowerHolds, Subtracted, FullPowerSpans, Covers;
    if spans == [] {
      HeldNothing(sign, d);
    } else {
      var n := |spans| - 1;
      var init, c := spans[..n], spans[n];
      RemainingFacts(init, stations, facilities, sign, d);
      SubtractFacts(c, FullPowerSpans(stations, facilities, c.sign), sign, d);
      TakenByFullPower(stations, facilities, c.sign, d);
      HeldConcat(Remaining(init, stations, facilities), Subtracted(c, FullPowerSpans(stations, facilities, c.sign)), sign, d);
      assert spans == init + [c];
      HeldConcat(init, [c], sign, d);
      HeldOne(c, sign, d);
    }
  }

  predicate Before(x: CallSign, y: CallSign) {
    x.to != OPEN && x.to <= y.from
  }

  /** Non-empty spans in order, each ending by the time any later one starts. */
  ghost predicate Chain(s: seq<CallSign>) {
    && (forall i :: 0 <= i < |s| ==> NonEmpty(s[i]))
    && Pairwise(s, Before)
  }

  lemma ChainConcat(a: seq<CallSign>, b: seq<CallSign>)
    requires Chain(a) && Chain(b)
    requires forall x, y :: x in a && y in b ==> Before(x, y)
    ensures Chain(a + b)
  {
    PairwiseConcat(a, b, Before);
  }

  lemma GappedChain(s: seq<CallSign>)
    requires Gapped(s)
    ensures Chain(s)
  {
    forall i, j | 0 <= i < j < |s| ensures Before(s[i], s[j]) { assert Apart(s[i], s[j]); }
  }

  /** Replacing the last span of a chain by parts of it, and the others by parts of them. */
  lemma ChainStep(init: seq<CallSign>, c: CallSign, a: seq<CallSign>, b: seq<CallSign>)
    requires Chain(init + [c]) && Chain(a) && Chain(b)
    requires PartsOf(a, init) && forall x :: x in b ==> Within(x, c)
    ensures Chain(a + b) && PartsOf(a + b, init + [c])
  {
    var s := init + [c];
    assert s[|init|] == c;
    forall x, y | x in a && y in b ensures Before(x, y) {
      var z :| z in init && Within(x, z);
      var i :| 0 <= i < |init| && init[i] == z;
      assert Before(s[i], s[|init|]);
    }
    ChainConcat(a, b);
    forall x | x in a + b ensures exists y :: y in s && Within(x, y) {
      if x in a {
        var y :| y in init && Within(x, y);
        assert y in s;
      } else {
        assert c in s;
      }
    }
  }

  lemma {:induction false} RemainingChain(spans: seq<CallSign>, stations: seq<Station>, facilities: map<string, Facility>)
    requires Chain(spans) && AllNormal(stations)
    ensures Chain(Remaining(spans, stations, facilities)) && PartsOf(Remaining(spans, stations, facilities), spans)
  {
    if spans != [] {
      var n := |spans| - 1;
      var init, c := spans[..n], spans[n];
      assert spans == init + [c];
      RemainingChain(init, stations, facilities);
      var taken := FullPowerSpans(stations, facilities, c.sign);
      forall t | t in taken ensures NonEmpty(t) {
        FullPowerMembers(stations, facilities, c.sign, t);
      }
      SubtractGapped(c, taken);
      GappedChain(Subtracted(c, taken));
      ChainStep(init, c, Remaining(init, stations, facilities), Subtracted(c, taken));
    }
  }

  lemma ChainConsistent(s: seq<CallSign>)
    requires Chain(s)
    ensures Consistent(s)
  {
    forall i, j | 0 <= i < j < |s| ensures s[i].from <= s[j].from && !Overlaps(s[i], s[j]) {
      assert Before(s[i], s[j]) && NonEmpty(s[i]);
    }
  }

  lemma NormalNamesSigns(s: seq<CallSign>, d: int)
    requires NormalForm(s)
    ensures !Held(s, "", d)
  {
    forall i | 0 <= i < |s| ensures s[i].sign != "" { assert Live(s[i]); }
  }

  lemma NormalChain(s: seq<CallSign>)
    requires NormalForm(s)
    ensures Chain(s)
  {
    forall i | 0 <= i < |s| ensures NonEmpty(s[i]) { assert Live(s[i]); }
    forall i, j | 0 <= i < j < |s| ensures Before(s[i], s[j]) { NormalOrder(s, i, j); }
  }

  /** A Class A station keeps a sign on a day exactly when it had it and no full-power station
      did; every other station is untouched; normal forms stay normal. */
  lemma PreferMeaning(stations: seq<Station>, facilities: map<string, Facility>, i: nat, sign: string, d: int)
    requires AllNormal(stations) && i < |stations|
    ensures var after := PreferredAll(stations, facilities)[i];
      && after.id == stations[i].id
      && NormalForm(after.callSigns)
      && (IsClassA(stations[i], facilities) ==>
            (Held(after.callSigns, sign, d) <==>
              Held(stations[i].callSigns, sign, d) && !FullPowerHolds(stations, facilities, sign, d)))
      && (!IsClassA(stations[i], facilities) ==> after == stations[i])
  {
    var s := stations[i];
    if IsClassA(s, facilities) {
      var kept := Remaining(s.callSigns, stations, facilities);
      NormalChain(s.callSigns);
      RemainingChain(s.callSigns, stations, facilities);
      RemainingFacts(s.callSigns, stations, facilities, sign, d);
      CompactedNormal(kept);
      ChainConsistent(kept);
      CompactedKeepsFacts(kept, sign, d);
      NormalNamesSigns(s.callSigns, d);
    }
  }

  lemma KeyOfId(id: string, key: string)
    requires id == "fcc:" + key
    ensures TrimPrefix(id, "fcc:") == key
  {
  }

  lemma KeyOfOther(id: string)
    requires !("fcc:" <= id)
    ensures TrimPrefix(id, "fcc:") == id
  {
  }

  lemma FullPowerInPlainTerms(s: Station, facilities: map<string, Facility>)
    requires "fcc:" <= s.id || s.id !in facilities
    ensures IsFullPower(s, facilities) <==> exists k :: k in facilities && s.id == "fcc:" + k && !facilities[k].classA
  {
    if "fcc:" <= s.id {
      assert s.id == "fcc:" + s.id[4..];
      KeyOfId(s.id, s.id[4..]);
    } else {
      KeyOfOther(s.id);
    }
  }

  /** The same for ids as the program makes them: a facility's is "fcc:" and its key, and no other
      id is a key.  A facility loses a day exactly when it is Class A and a full-power facility
      holds the sign that day. */
  lemma PreferInPlainTerms(stations: seq<Station>, facilities: map<string, Facility>, i: nat, key: string,
                           sign: string, d: int)
    requires AllNormal(stations) && i < |stations| && stations[i].id == "fcc:" + key
    requires forall s :: s in stations ==> "fcc:" <= s.id || s.id !in facilities
    ensures Held(PreferredAll(stations, facilities)[i].callSigns, sign, d) <==>
      && Held(stations[i].callSigns, sign, d)
      && !(key in facilities && facilities[key].classA
           && exists j, k :: 0 <= j < |stations| && k in facilities && stations[j].id == "fcc:" + k
                && !facilities[k].classA && Held(stations[j].callSigns, sign, d))
  {
    hide Held, PreferredAll, NormalForm, IsFullPower;
    PreferMeaning(stations, facilities, i, sign, d);
    KeyOfId(stations[i].id, key);
    forall j | 0 <= j < |stations|
      ensures IsFullPower(stations[j], facilities) <==>
        exists k :: k in facilities && stations[j].id == "fcc:" + k && !facilities[k].classA
    {
      assert stations[j] in stations;
      FullPowerInPlainTerms(stations[j], facilities);
    }
  }
}
