/** The one-holder clip of open starts, and the pipeline the clip closes
  (cmd/station-data/main.go, `clipReusedCallSigns` and `main`). */
module Clip {
  import opened Spans
  import opened FullPower
  import opened Holders

  datatype End = End(station: string, sign: string, to: Date)

  function EndsOf(id: string, spans: seq<CallSign>): seq<End> {
    if spans == [] then []
    else
      var n := |spans| - 1;
      EndsOf(id, spans[..n]) + if spans[n].to != OPEN then [End(id, spans[n].sign, spans[n].to)] else []
  }

  /** Every recorded end, in station order. */
  function Ends(stations: seq<Station>): seq<End> {
    if stations == [] then []
    else
      var n := |stations| - 1;
      Ends(stations[..n]) + EndsOf(stations[n].id, stations[n].callSigns)
  }

  /** Another station's tenure of `c`'s sign ended at `e`, before `c` does. */
  predicate EndedEarlier(e: End, id: string, c: CallSign) {
    e.sign == c.sign && e.station != id && (c.to == OPEN || e.to < c.to)
  }

  /** The start an open span is moved to. */
  function ClipStart(c: CallSign, id: string, ends: seq<End>): Date {
    if ends == [] then c.from
    else
      var from := ClipStart(c, id, ends[..|ends| - 1]);
      var e := ends[|ends| - 1];
      if EndedEarlier(e, id, c) && e.to > from then e.to else from
  }

  function ClipSpan(c: CallSign, id: string, ends: seq<End>): CallSign {
    if c.from != OPEN then c else c.(from := ClipStart(c, id, ends))
  }

  function ClipSpans(spans: seq<CallSign>, id: string, ends: seq<End>): seq<CallSign> {
    seq(|spans|, i requires 0 <= i < |spans| => ClipSpan(spans[i], id, ends))
  }

  function ClipStation(s: Station, ends: seq<End>): Station {
    s.(callSigns := ClipSpans(s.callSigns, s.id, ends))
  }

  function Clipped(stations: seq<Station>): seq<Station> {
    seq(|stations|, i requires 0 <= i < |stations| => ClipStation(stations[i], Ends(stations)))
  }

  method CollectEnds(stations: seq<Station>) returns (ends: seq<End>)
    ensures ends == Ends(stations)
  {
    ends := [];
    for i := 0 to |stations|
      invariant ends == Ends(stations[..i])
    {
      var s := stations[i];
      ghost var before := ends;
      for j := 0 to |s.callSigns|
        invariant ends == before + EndsOf(s.id, s.callSigns[..j])
      {
        var c := s.callSigns[j];
        assert s.callSigns[..j + 1][..j] == s.callSigns[..j];
        if c.to != OPEN {
          ends := ends + [End(s.id, c.sign, c.to)];
        }
      }
      assert s.callSigns[..|s.callSigns|] == s.callSigns;
      assert stations[..i + 1][..i] == stations[..i];
    }
    assert stations[..|stations|] == stations;
  }

  method ClipReusedCallSigns(stations: array<Station>)
    modifies stations
    ensures stations[..] == Clipped(old(stations[..]))
  {
    hide Ends;
    ghost var was := stations[..];
    var ends := CollectEnds(stations[..]);
    for i := 0 to stations.Length
      invariant forall k :: i <= k < stations.Length ==> stations[k] == was[k]
      invariant forall k :: 0 <= k < i ==> stations[k] == ClipStation(was[k], ends)
    {
      var id, spans := stations[i].id, stations[i].callSigns;
      for j := 0 to |spans|
        invariant stations[i].id == id && |stations[i].callSigns| == |spans|
        invariant forall k :: 0 <= k < stations.Length && k != i ==>
          stations[k] == if k < i then ClipStation(was[k], ends) else was[k]
        invariant forall k :: 0 <= k < j ==> stations[i].callSigns[k] == ClipSpan(spans[k], id, ends)
        invariant forall k :: j <= k < |spans| ==> stations[i].callSigns[k] == spans[k]
      {
        var c := stations[i].callSigns[j];
        if c.from != OPEN {
          continue;
        }
        for k := 0 to |ends|
          invariant c == spans[j].(from := ClipStart(spans[j], id, ends[..k]))
        {
          var other := ends[k];
          assert ends[..k + 1][..k] == ends[..k];
          if other.sign == c.sign && other.station != id && (c.to == OPEN || other.to < c.to) && other.to > c.from {
            c := c.(from := other.to);
          }
        }
        assert ends[..|ends|] == ends;
        stations[i] := stations[i].(callSigns := stations[i].callSigns[j := c]);
      }
      assert stations[i].callSigns == ClipSpans(spans, id, ends);
      assert stations[i] == ClipStation(was[i], ends);
    }
  }

  // ---------------------------------------------------------------- the start is a maximum

  lemma {:induction false} EndsOfMembers(id: string, spans: seq<CallSign>, e: End)
    ensures e in EndsOf(id, spans) <==>
      e.station == id && exists k :: 0 <= k < |spans| && spans[k].to != OPEN && spans[k].sign == e.sign && spans[k].to == e.to
  {
    if spans != [] {
      var n := |spans| - 1;
      EndsOfMembers(id, spans[..n], e);
      assert spans == spans[..n] + [spans[n]];
    }
  }

  lemma {:induction false} EndsMembers(stations: seq<Station>, e: End)
    ensures e in Ends(stations) <==> exists s :: s in stations && e in EndsOf(s.id, s.callSigns)
  {
    if stations != [] {
      var n := |stations| - 1;
      EndsMembers(stations[..n], e);
      assert stations == stations[..n] + [stations[n]];
    }
  }

  lemma {:induction false} ClipStartMax(c: CallSign, id: string, ends: seq<End>)
    ensures var m := ClipStart(c, id, ends);
      && (m == c.from || exists e :: e in ends && EndedEarlier(e, id, c) && e.to == m)
      && c.from <= m
      && (forall e :: e in ends && EndedEarlier(e, id, c) ==> e.to <= m)
  {
    if ends != [] {
      ClipStartMax(c, id, ends[..|ends| - 1]);
      assert ends == ends[..|ends| - 1] + [ends[|ends| - 1]];
    }
  }

  /** Only which ends are recorded matters, not their order or number. */
  lemma ClipStartOrderless(c: CallSign, id: string, a: seq<End>, b: seq<End>)
    requires forall e :: e in a <==> e in b
    ensures ClipStart(c, id, a) == ClipStart(c, id, b)
  {
    ClipStartMax(c, id, a);
    ClipStartMax(c, id, b);
  }

  /** The clip of a station does not depend on the order the stations come in. */
  lemma ClipOrderless(a: seq<Station>, b: seq<Station>, s: Station)
    requires forall x :: x in a <==> x in b
    ensures ClipStation(s, Ends(a)) == ClipStation(s, Ends(b))
  {
    forall e ensures e in Ends(a) <==> e in Ends(b) {
      EndsMembers(a, e);
      EndsMembers(b, e);
    }
    forall i | 0 <= i < |s.callSigns|
      ensures ClipSpan(s.callSigns[i], s.id, Ends(a)) == ClipSpan(s.callSigns[i], s.id, Ends(b))
    {
      ClipStartOrderless(s.callSigns[i], s.id, Ends(a), Ends(b));
    }
    assert ClipSpans(s.callSigns, s.id, Ends(a)) == ClipSpans(s.callSigns, s.id, Ends(b));
  }

  // ---------------------------------------------------------------- what a clip keeps

  /** A clip keeps the sign and the end, moves the start later if at all, and leaves a day. */
  lemma ClipShrinks(c: CallSign, id: string, ends: seq<End>)
    ensures var r := ClipSpan(c, id, ends);
      && r.sign == c.sign && r.to == c.to && c.from <= r.from
      && (forall d :: Covers(r, d) ==> Covers(c, d))
      && (NonEmpty(c) ==> NonEmpty(r))
  {
    ClipStartMax(c, id, ends);
  }

  lemma {:induction false} ClipKeepsEndsOf(id: string, spans: seq<CallSign>, ends: seq<End>)
    ensures EndsOf(id, ClipSpans(spans, id, ends)) == EndsOf(id, spans)
  {
    if spans != [] {
      var n := |spans| - 1;
      ClipKeepsEndsOf(id, spans[..n], ends);
      assert ClipSpans(spans, id, ends)[..n] == ClipSpans(spans[..n], id, ends);
    }
  }

  lemma {:induction false} ClipKeepsEnds(stations: seq<Station>, ends: seq<End>)
    ensures Ends(seq(|stations|, i requires 0 <= i < |stations| => ClipStation(stations[i], ends))) == Ends(stations)
  {
    var after := seq(|stations|, i requires 0 <= i < |stations| => ClipStation(stations[i], ends));
    if stations != [] {
      var n := |stations| - 1;
      var init := stations[..n];
      ClipKeepsEnds(init, ends);
      assert after[..n] == seq(|init|, i requires 0 <= i < |init| => ClipStation(init[i], ends));
      ClipKeepsEndsOf(stations[n].id, stations[n].callSigns, ends);
    }
  }

  lemma ClipSpanIdempotent(c: CallSign, id: string, ends: seq<End>)
    ensures ClipSpan(ClipSpan(c, id, ends), id, ends) == ClipSpan(c, id, ends)
  {
  }

  lemma ClipIdempotent(stations: seq<Station>)
    ensures Clipped(Clipped(stations)) == Clipped(stations)
  {
    var ends := Ends(stations);
    var once := Clipped(stations);
    ClipKeepsEnds(stations, ends);
    forall i | 0 <= i < |stations| ensures ClipStation(once[i], ends) == once[i] {
      var s := once[i];
      forall k | 0 <= k < |s.callSigns| ensures ClipSpan(s.callSigns[k], s.id, ends) == s.callSigns[k] {
        ClipSpanIdempotent(stations[i].callSigns[k], s.id, ends);
      }
      assert ClipSpans(s.callSigns, s.id, ends) == s.callSigns;
    }
    assert Clipped(once) == once;
  }

  /** A tenure with no recorded start no longer meets any other station's tenure of that sign
      that ended earlier. */
  lemma ClipSeparates(stations: seq<Station>, i: nat, j: nat, p: nat, q: nat)
    requires i < |stations| && j < |stations| && stations[i].id != stations[j].id
    requires p < |stations[i].callSigns| && q < |stations[j].callSigns|
    requires var c, o := stations[i].callSigns[p], stations[j].callSigns[q];
      c.from == OPEN && o.sign == c.sign && o.to != OPEN && (c.to == OPEN || o.to < c.to)
    ensures !Overlaps(Clipped(stations)[i].callSigns[p], Clipped(stations)[j].callSigns[q])
  {
    var c, o := stations[i].callSigns[p], stations[j].callSigns[q];
    var e := End(stations[j].id, o.sign, o.to);
    EndsOfMembers(stations[j].id, stations[j].callSigns, e);
    assert stations[j] in stations;
    EndsMembers(stations, e);
    ClipStartMax(c, stations[i].id, Ends(stations));
    ClipShrinks(o, stations[j].id, Ends(stations));
  }

  // ---------------------------------------------------------------- the count never rises

  /** `b` is `a` with some starts moved later. */
  ghost predicate Later(a: seq<Holder>, b: seq<Holder>) {
    |a| == |b| && forall i :: 0 <= i < |a| ==>
      a[i].station == b[i].station && a[i].span.sign == b[i].span.sign
      && a[i].span.to == b[i].span.to && a[i].span.from <= b[i].span.from
  }

  lemma {:induction false} LaterClashesWith(x: Holder, y: Holder, a: seq<Holder>, b: seq<Holder>)
    requires Later(a, b) && Later([x], [y])
    ensures ClashesWith(y, b) <= ClashesWith(x, a)
  {
    assert [x][0] == x && [y][0] == y;
    if a != [] {
      var n := |a| - 1;
      LaterClashesWith(x, y, a[..n], b[..n]);
      assert Clash(y, b[n]) ==> Clash(x, a[n]);
    }
  }

  lemma {:induction false} LaterCount(a: seq<Holder>, b: seq<Holder>)
    requires Later(a, b)
    ensures ClashCount(b) <= ClashCount(a)
  {
    if a != [] {
      LaterClashesWith(a[0], b[0], a[1..], b[1..]);
      LaterCount(a[1..], b[1..]);
    }
  }

  lemma {:induction false} ClippedLater(stations: seq<Station>, ends: seq<End>)
    ensures Later(AllHolders(stations),
      AllHolders(seq(|stations|, i requires 0 <= i < |stations| => ClipStation(stations[i], ends))))
  {
    hide Later, ClipSpans, Tag;
    var after := seq(|stations|, i requires 0 <= i < |stations| => ClipStation(stations[i], ends));
    if stations == [] {
      NothingLater();
    } else {
      var n := |stations| - 1;
      var init := stations[..n];
      ClippedLater(init, ends);
      assert after[..n] == seq(|init|, i requires 0 <= i < |init| => ClipStation(init[i], ends));
      TaggedLater(n, stations[n].callSigns, stations[n].id, ends);
      LaterConcat(AllHolders(init), AllHolders(after[..n]), Tag(n, stations[n].callSigns), Tag(n, after[n].callSigns));
    }
  }

  lemma NothingLater()
    ensures Later([], [])
  {
  }

  lemma TaggedLater(n: nat, spans: seq<CallSign>, id: string, ends: seq<End>)
    ensures Later(Tag(n, spans), Tag(n, ClipSpans(spans, id, ends)))
  {
    hide ClipSpan;
    forall k | 0 <= k < |spans| ensures
      var r := ClipSpan(spans[k], id, ends); r.sign == spans[k].sign && r.to == spans[k].to && spans[k].from <= r.from
    {
      ClipShrinks(spans[k], id, ends);
    }
  }

  lemma LaterConcat(a: seq<Holder>, b: seq<Holder>, c: seq<Holder>, d: seq<Holder>)
    requires Later(a, b) && Later(c, d)
    ensures Later(a + c, b + d)
  {
  }

  lemma ClipNeverAddsClashes(stations: seq<Station>)
    ensures ClashCount(AllHolders(Clipped(stations))) <= ClashCount(AllHolders(stations))
  {
    ClippedLater(stations, Ends(stations));
    LaterCount(AllHolders(stations), AllHolders(Clipped(stations)));
  }

  // ---------------------------------------------------------------- the pipeline

  lemma ClipNormal(spans: seq<CallSign>, id: string, ends: seq<End>, sign: string, d: int)
    requires NormalForm(spans)
    ensures NormalForm(ClipSpans(spans, id, ends))
    ensures Held(ClipSpans(spans, id, ends), sign, d) ==> Held(spans, sign, d)
  {
    var r := ClipSpans(spans, id, ends);
    forall i | 0 <= i < |spans| ensures Live(r[i]) {
      assert Live(spans[i]);
      ClipShrinks(spans[i], id, ends);
    }
    forall i | 0 < i < |spans| ensures Follows(r[i - 1], r[i]) {
      assert Follows(spans[i - 1], spans[i]);
      NormalOrder(spans, i - 1, i);
      ClipShrinks(spans[i - 1], id, ends);
    }
    if i :| 0 <= i < |r| && r[i].sign == sign && Covers(r[i], d) {
      ClipShrinks(spans[i], id, ends);
      assert spans[i].sign == sign && Covers(spans[i], d);
    }
  }

  /** Another station's tenure of the sign, ended later than day `d`, takes the day from a span with
      an open start. */
  ghost predicate ClippedAway(s: Station, ends: seq<End>, sign: string, d: int) {
    exists c, e :: c in s.callSigns && e in ends && ClipTakes(s.id, c, e, sign, d)
  }

  predicate ClipTakes(id: string, c: CallSign, e: End, sign: string, d: int) {
    c.sign == sign && c.from == OPEN && Covers(c, d) && EndedEarlier(e, id, c) && e.to != OPEN && d < e.to
  }

  /** Exactly which days a clip costs a history in normal form. */
  lemma ClipExactly(s: Station, ends: seq<End>, sign: string, d: int)
    requires NormalForm(s.callSigns)
    ensures Held(ClipStation(s, ends).callSigns, sign, d)
       <==> Held(s.callSigns, sign, d) && !ClippedAway(s, ends, sign, d)
  {
    hide NormalForm, EndedEarlier;
    var spans, r := s.callSigns, ClipSpans(s.callSigns, s.id, ends);
    ClipNormal(spans, s.id, ends, sign, d);
    if i :| 0 <= i < |r| && r[i].sign == sign && Covers(r[i], d) {
      ClipStartMax(spans[i], s.id, ends);
      ClipShrinks(spans[i], s.id, ends);
      forall c, e | c in spans && e in ends && ClipTakes(s.id, c, e, sign, d) ensures false {
        var k :| 0 <= k < |spans| && spans[k] == c;
        OneSpanCovers(spans, i, k, d);
      }
    }
    if i :| 0 <= i < |spans| && spans[i].sign == sign && Covers(spans[i], d) {
      var m := ClipStart(spans[i], s.id, ends);
      ClipStartMax(spans[i], s.id, ends);
      if spans[i].from == OPEN && m != OPEN && d < m {
        var e :| e in ends && EndedEarlier(e, s.id, spans[i]) && e.to == m;
        assert ClipTakes(s.id, spans[i], e, sign, d);
      } else {
        assert r[i].sign == sign && Covers(r[i], d);
      }
    }
  }

  lemma OneSpanCovers(spans: seq<CallSign>, i: nat, k: nat, d: int)
    requires NormalForm(spans) && i < |spans| && k < |spans| && Covers(spans[i], d) && Covers(spans[k], d)
    ensures i == k
  {
    if i < k { NormalOrder(spans, i, k); }
    if k < i { NormalOrder(spans, k, i); }
  }

  /** The clip, with the stations' own tenures: span `p` of station `i`, open at the start, loses the
      day to span `q` of station `j`. */
  predicate TakenBy(stations: seq<Station>, i: nat, p: nat, j: nat, q: nat, sign: string, d: int)
    requires i < |stations| && p < |stations[i].callSigns| && j < |stations| && q < |stations[j].callSigns|
  {
    var c, o := stations[i].callSigns[p], stations[j].callSigns[q];
    && stations[j].id != stations[i].id && c.sign == sign && o.sign == sign
    && c.from == OPEN && (c.to == OPEN || d < c.to)
    && o.to != OPEN && (c.to == OPEN || o.to < c.to) && d < o.to
  }

  /** A station loses a day exactly when it held it by a tenure open at the start, which outlasts a
      tenure of the sign that another station ended after that day. */
  lemma ClipInPlainTerms(stations: seq<Station>, i: nat, sign: string, d: int)
    requires i < |stations| && NormalForm(stations[i].callSigns)
    ensures Held(Clipped(stations)[i].callSigns, sign, d) <==>
      && Held(stations[i].callSigns, sign, d)
      && !exists p, j, q :: 0 <= p < |stations[i].callSigns| && 0 <= j < |stations| && 0 <= q < |stations[j].callSigns|
           && TakenBy(stations, i, p, j, q, sign, d)
  {
    hide Held, NormalForm, Ends, ClipStation;
    var s, ends := stations[i], Ends(stations);
    ClipExactly(s, ends, sign, d);
    if c, e :| c in s.callSigns && e in ends && ClipTakes(s.id, c, e, sign, d) {
      var p :| 0 <= p < |s.callSigns| && s.callSigns[p] == c;
      EndsMembers(stations, e);
      var t :| t in stations && e in EndsOf(t.id, t.callSigns);
      EndsOfMembers(t.id, t.callSigns, e);
      var j :| 0 <= j < |stations| && stations[j] == t;
      var q :| 0 <= q < |t.callSigns| && t.callSigns[q].to != OPEN && t.callSigns[q].sign == e.sign && t.callSigns[q].to == e.to;
      assert TakenBy(stations, i, p, j, q, sign, d);
    }
    if p, j, q :| (0 <= p < |stations[i].callSigns| && 0 <= j < |stations| && 0 <= q < |stations[j].callSigns|
                   && TakenBy(stations, i, p, j, q, sign, d)) {
      var t := stations[j];
      var e := End(t.id, sign, t.callSigns[q].to);
      EndsOfMembers(t.id, t.callSigns, e);
      EndsMembers(stations, e);
      assert ClipTakes(s.id, s.callSigns[p], e, sign, d);
    }
  }

  function DropEmpty(stations: seq<Station>): seq<Station> {
    if stations == [] then []
    else
      var n := |stations| - 1;
      DropEmpty(stations[..n]) + if stations[n].callSigns == [] then [] else [stations[n]]
  }

  lemma {:induction false} DropEmptyMembers(stations: seq<Station>, s: Station)
    ensures s in DropEmpty(stations) <==> s in stations && s.callSigns != []
  {
    if stations != [] {
      var n := |stations| - 1;
      DropEmptyMembers(stations[..n], s);
      assert stations == stations[..n] + [stations[n]];
    }
  }

  /** The steps of `main` between building the stations and counting what is still ambiguous. */
  method Settle(stations: array<Station>, facilities: map<string, Facility>)
    returns (settled: seq<Station>, ambiguous: nat)
    modifies stations
    ensures settled == DropEmpty(Clipped(PreferredAll(old(stations[..]), facilities)))
    ensures ambiguous == ClashCount(AllHolders(settled))
  {
    PreferFullPower(stations, facilities);
    ClipReusedCallSigns(stations);
    settled := [];
    for i := 0 to stations.Length
      invariant settled == DropEmpty(stations[..i])
    {
      assert stations[..i + 1][..i] == stations[..i];
      if |stations[i].callSigns| != 0 {
        settled := settled + [stations[i]];
      }
    }
    assert stations[..stations.Length] == stations[..];
    ambiguous := ConcurrentHolders(settled);
  }

  /** A station of the settled list, traced back to the station it came from. */
  lemma SettledFrom(stations: seq<Station>, facilities: map<string, Facility>, s: Station) returns (i: nat)
    requires s in DropEmpty(Clipped(PreferredAll(stations, facilities)))
    ensures i < |stations| && s == Clipped(PreferredAll(stations, facilities))[i] && s.callSigns != []
  {
    var preferred := PreferredAll(stations, facilities);
    DropEmptyMembers(Clipped(preferred), s);
    i :| 0 <= i < |Clipped(preferred)| && Clipped(preferred)[i] == s;
  }

  /** What the pipeline guarantees of every station it keeps: a non-empty normal form, no fact
      the station did not have, and, for a Class A station, no day on which any full-power
      station it keeps holds the same sign. */
  lemma SettledFacts(stations: seq<Station>, facilities: map<string, Facility>, s: Station, t: Station,
                     sign: string, d: int)
    requires AllNormal(stations)
    requires var settled := DropEmpty(Clipped(PreferredAll(stations, facilities))); s in settled && t in settled
    ensures NormalForm(s.callSigns) && s.callSigns != []
    ensures Held(s.callSigns, sign, d) ==>
      exists i :: 0 <= i < |stations| && stations[i].id == s.id && Held(stations[i].callSigns, sign, d)
    ensures IsClassA(s, facilities) && IsFullPower(t, facilities) ==>
      !(Held(s.callSigns, sign, d) && Held(t.callSigns, sign, d))
  {
    var preferred := PreferredAll(stations, facilities);
    var ends := Ends(preferred);
    var i := SettledFrom(stations, facilities, s);
    var j := SettledFrom(stations, facilities, t);
    PreferMeaning(stations, facilities, i, sign, d);
    PreferMeaning(stations, facilities, j, sign, d);
    ClipNormal(preferred[i].callSigns, preferred[i].id, ends, sign, d);
    ClipNormal(preferred[j].callSigns, preferred[j].id, ends, sign, d);
  }
}
