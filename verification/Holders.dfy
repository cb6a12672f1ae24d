/** Counting the pairs of stations that hold one call sign at once (cmd/station-data/main.go,
  `concurrentHolders`). */
module Holders {
  import opened Spans
  import opened FullPower

  datatype Holder = Holder(station: nat, span: CallSign)

  predicate Clash(x: Holder, y: Holder) {
    x.station != y.station && x.span.sign == y.span.sign && Overlaps(x.span, y.span)
  }

  function ClashesWith(x: Holder, h: seq<Holder>): nat {
    if h == [] then 0 else ClashesWith(x, h[..|h| - 1]) + if Clash(x, h[|h| - 1]) then 1 else 0
  }

  /** The number of unordered clashing pairs of positions. */
  function ClashCount(h: seq<Holder>): nat {
    if h == [] then 0 else ClashesWith(h[0], h[1..]) + ClashCount(h[1..])
  }

  function Tag(station: nat, spans: seq<CallSign>): seq<Holder> {
    seq(|spans|, i requires 0 <= i < |spans| => Holder(station, spans[i]))
  }

  /** Every span of every station, in order. */
  function AllHolders(stations: seq<Station>): seq<Holder> {
    if stations == [] then []
    else AllHolders(stations[..|stations| - 1]) + Tag(|stations| - 1, stations[|stations| - 1].callSigns)
  }

  function ForSign(h: seq<Holder>, sign: string): seq<Holder> {
    if h == [] then []
    else ForSign(h[..|h| - 1], sign) + if h[|h| - 1].span.sign == sign then [h[|h| - 1]] else []
  }

  lemma {:induction false} ForSignHasSign(h: seq<Holder>, sign: string)
    ensures forall x :: x in ForSign(h, sign) ==> x.span.sign == sign
  {
    if h != [] { ForSignHasSign(h[..|h| - 1], sign); }
  }

  // ---------------------------------------------------------------- the grouped count

  /** `bySign` holds the holders of each sign, in order. */
  ghost predicate Groups(bySign: map<string, seq<Holder>>, h: seq<Holder>) {
    && (forall sign :: Lookup(bySign, sign) == ForSign(h, sign))
    && (forall x :: x in h ==> x.span.sign in bySign)
  }

  lemma GroupStep(bySign: map<string, seq<Holder>>, h: seq<Holder>, x: Holder)
    requires Groups(bySign, h)
    ensures Groups(bySign[x.span.sign := Lookup(bySign, x.span.sign) + [x]], h + [x])
  {
    var next := bySign[x.span.sign := Lookup(bySign, x.span.sign) + [x]];
    var all := h + [x];
    assert all[..|all| - 1] == h && all[|all| - 1] == x;
    forall sign ensures Lookup(next, sign) == ForSign(all, sign) {
      assert Lookup(bySign, sign) == ForSign(h, sign);
    }
  }

  /** The pairs within one sign's group, where the sign itself is not compared again. */
  method CountClashes(holders: seq<Holder>, ghost sign: string) returns (n: nat)
    requires forall x :: x in holders ==> x.span.sign == sign
    ensures n == ClashCount(holders)
  {
    n := 0;
    for i := 0 to |holders|
      invariant n + ClashCount(holders[i..]) == ClashCount(holders)
    {
      ghost var before := n;
      var rest := holders[i + 1..];
      for j := i + 1 to |holders|
        invariant n == before + ClashesWith(holders[i], rest[..j - i - 1])
      {
        assert rest[..j - i][..j - i - 1] == rest[..j - i - 1];
        assert rest[j - i - 1] == holders[j];
        assert holders[i] in holders && holders[j] in holders;
        if holders[i].station != holders[j].station && Overlaps(holders[i].span, holders[j].span) {
          n := n + 1;
        }
      }
      assert rest[..|rest|] == rest;
      assert holders[i..][1..] == rest;
    }
  }

  function Among(h: seq<Holder>, signs: set<string>): seq<Holder> {
    if h == [] then []
    else (if h[0].span.sign in signs then [h[0]] else []) + Among(h[1..], signs)
  }

  lemma {:induction false} ClashesWithSplit(x: Holder, a: seq<Holder>, b: seq<Holder>)
    ensures ClashesWith(x, a + b) == ClashesWith(x, a) + ClashesWith(x, b)
  {
    if b == [] {
      assert a + b == a;
    } else {
      ClashesWithSplit(x, a, b[..|b| - 1]);
      assert (a + b)[..|a + b| - 1] == a + b[..|b| - 1];
    }
  }

  /** Holders of other signs do not matter to a holder. */
  lemma {:induction false} ClashesAmong(x: Holder, h: seq<Holder>, signs: set<string>)
    requires x.span.sign in signs
    ensures ClashesWith(x, Among(h, signs)) == ClashesWith(x, h)
  {
    if h != [] {
      ClashesAmong(x, h[1..], signs);
      ClashesWithSplit(x, if h[0].span.sign in signs then [h[0]] else [], Among(h[1..], signs));
      ClashesWithSplit(x, [h[0]], h[1..]);
      assert h == [h[0]] + h[1..];
      assert [h[0]][..0] == [];
    }
  }

  /** Removing one sign's group removes exactly the pairs inside it. */
  lemma {:induction false} SplitOffSign(h: seq<Holder>, signs: set<string>, sign: string)
    requires sign in signs
    ensures ClashCount(Among(h, signs)) == ClashCount(Among(h, {sign})) + ClashCount(Among(h, signs - {sign}))
  {
    hide ClashCount, ClashesWith;
    if h == [] {
      NoHolders();
    } else {
      var x, t := h[0], h[1..];
      SplitOffSign(t, signs, sign);
      if x.span.sign in signs {
        ClashesAmong(x, t, signs);
        HeadCount(x, Among(t, signs));
        if x.span.sign == sign {
          ClashesAmong(x, t, {sign});
          HeadCount(x, Among(t, {sign}));
          assert Among(h, signs - {sign}) == Among(t, signs - {sign});
        } else {
          ClashesAmong(x, t, signs - {sign});
          HeadCount(x, Among(t, signs - {sign}));
          assert Among(h, {sign}) == Among(t, {sign});
        }
      } else {
        assert Among(h, signs) == Among(t, signs) && Among(h, {sign}) == Among(t, {sign});
        assert Among(h, signs - {sign}) == Among(t, signs - {sign});
      }
    }
  }

  lemma NoHolders()
    ensures ClashCount([]) == 0
  {
  }

  lemma HeadCount(x: Holder, h: seq<Holder>)
    ensures ClashCount([x] + h) == ClashesWith(x, h) + ClashCount(h)
  {
    assert ([x] + h)[1..] == h;
  }

  lemma AmongFirst(x: Holder, h: seq<Holder>, signs: set<string>)
    ensures Among([x] + h, signs) == (if x.span.sign in signs then [x] else []) + Among(h, signs)
  {
    assert ([x] + h)[1..] == h;
  }

  lemma AmongNothing(signs: set<string>)
    ensures Among([], signs) == []
  {
  }

  lemma {:induction false} AmongSplit(a: seq<Holder>, b: seq<Holder>, signs: set<string>)
    ensures Among(a + b, signs) == Among(a, signs) + Among(b, signs)
  {
    hide Among;
    if a == [] {
      AmongNothing(signs);
      assert a + b == b;
    } else {
      var x, t := a[0], a[1..];
      assert a == [x] + t && a + b == [x] + (t + b);
      AmongFirst(x, t, signs);
      AmongFirst(x, t + b, signs);
      AmongSplit(t, b, signs);
    }
  }

  lemma {:induction false} AmongOne(h: seq<Holder>, sign: string)
    ensures Among(h, {sign}) == ForSign(h, sign)
  {
    if h != [] {
      var n := |h| - 1;
      AmongOne(h[..n], sign);
      AmongSplit(h[..n], [h[n]], {sign});
      assert h == h[..n] + [h[n]];
      assert [h[n]][1..] == [];
    }
  }

  lemma {:induction false} AmongAll(h: seq<Holder>, signs: set<string>)
    requires forall x :: x in h ==> x.span.sign in signs
    ensures Among(h, signs) == h
  {
    if h != [] {
      AmongAll(h[1..], signs);
    }
  }

  lemma {:induction false} AmongNone(h: seq<Holder>)
    ensures Among(h, {}) == []
  {
    if h != [] { AmongNone(h[1..]); }
  }

  function GroupMap(h: seq<Holder>): map<string, seq<Holder>> {
    if h == [] then map[]
    else
      var m, x := GroupMap(h[..|h| - 1]), h[|h| - 1];
      m[x.span.sign := Lookup(m, x.span.sign) + [x]]
  }

  lemma {:induction false} GroupMapGroups(h: seq<Holder>)
    ensures Groups(GroupMap(h), h)
  {
    if h != [] {
      GroupMapGroups(h[..|h| - 1]);
      GroupStep(GroupMap(h[..|h| - 1]), h[..|h| - 1], h[|h| - 1]);
      assert h == h[..|h| - 1] + [h[|h| - 1]];
    }
  }

  method GroupStation(start: map<string, seq<Holder>>, ghost before: seq<Holder>, station: nat, spans: seq<CallSign>)
    returns (bySign: map<string, seq<Holder>>)
    requires start == GroupMap(before)
    ensures bySign == GroupMap(before + Tag(station, spans))
  {
    hide GroupMap, Lookup;
    bySign := start;
    ghost var tagged := Tag(station, spans);
    assert before + tagged[..0] == before;
    for j := 0 to |spans|
      invariant bySign == GroupMap(before + tagged[..j])
    {
      var x := Holder(station, spans[j]);
      assert before + tagged[..j + 1] == before + tagged[..j] + [x];
      GroupMapSnoc(before + tagged[..j], x);
      bySign := bySign[x.span.sign := Lookup(bySign, x.span.sign) + [x]];
    }
    assert tagged[..|spans|] == tagged;
  }

  lemma GroupMapSnoc(h: seq<Holder>, x: Holder)
    ensures GroupMap(h + [x]) == var m := GroupMap(h); m[x.span.sign := Lookup(m, x.span.sign) + [x]]
  {
    hide Lookup;
    var all := h + [x];
    assert all[..|all| - 1] == h && all[|all| - 1] == x;
  }

  method GroupBySign(stations: seq<Station>) returns (bySign: map<string, seq<Holder>>)
    ensures bySign == GroupMap(AllHolders(stations))
  {
    bySign := map[];
    for i := 0 to |stations|
      invariant bySign == GroupMap(AllHolders(stations[..i]))
    {
      bySign := GroupStation(bySign, AllHolders(stations[..i]), i, stations[i].callSigns);
      assert stations[..i + 1][..i] == stations[..i];
    }
    assert stations[..|stations|] == stations;
  }

  /** The signs are visited in an arbitrary order, as a map is. */
  method ConcurrentHolders(stations: seq<Station>) returns (n: nat)
    ensures n == ClashCount(AllHolders(stations)) == |ClashingPairs(stations)|
  {
    CountIsPairs(stations);
    hide ClashingPairs;
    var bySign := GroupBySign(stations);
    ghost var h := AllHolders(stations);
    GroupMapGroups(h);
    var signs := bySign.Keys;
    n := 0;
    AmongAll(h, signs);
    while signs != {}
      invariant signs <= bySign.Keys
      invariant n + ClashCount(Among(h, signs)) == ClashCount(h)
      decreases signs
    {
      var sign :| sign in signs;
      SplitOffSign(h, signs, sign);
      AmongOne(h, sign);
      assert Lookup(bySign, sign) == ForSign(h, sign);
      ForSignHasSign(h, sign);
      var inGroup := CountClashes(bySign[sign], sign);
      n := n + inGroup;
      signs := signs - {sign};
    }
    AmongNone(h);
  }

  // ---------------------------------------------------------------- what zero means

  lemma {:induction false} NoClashesWith(x: Holder, h: seq<Holder>)
    ensures ClashesWith(x, h) == 0 <==> forall j :: 0 <= j < |h| ==> !Clash(x, h[j])
  {
    if h != [] {
      var n := |h| - 1;
      NoClashesWith(x, h[..n]);
      assert forall j :: 0 <= j < n ==> h[..n][j] == h[j];
      if ClashesWith(x, h) == 0 {
        forall j | 0 <= j < |h| ensures !Clash(x, h[j]) {
          if j < n { assert !Clash(x, h[..n][j]); }
        }
      }
    }
  }

  lemma {:induction false} NoClashes(h: seq<Holder>)
    ensures ClashCount(h) == 0 <==> forall i, j :: 0 <= i < j < |h| ==> !Clash(h[i], h[j])
  {
    if h != [] {
      var t := h[1..];
      NoClashes(t);
      NoClashesWith(h[0], t);
      if ClashCount(h) == 0 {
        forall i, j | 0 <= i < j < |h| ensures !Clash(h[i], h[j]) {
          if i == 0 { assert !Clash(h[0], t[j - 1]); } else { assert !Clash(t[i - 1], t[j - 1]); }
        }
      }
      if forall i, j :: 0 <= i < j < |h| ==> !Clash(h[i], h[j]) {
        assert forall j :: 0 <= j < |t| ==> t[j] == h[j + 1];
      }
    }
  }

  lemma {:induction false} HoldersMembers(stations: seq<Station>, x: Holder)
    ensures x in AllHolders(stations) <==> x.station < |stations| && x.span in stations[x.station].callSigns
  {
    if stations != [] {
      var n := |stations| - 1;
      HoldersMembers(stations[..n], x);
      var tagged := Tag(n, stations[n].callSigns);
      assert x in tagged <==> x.station == n && x.span in stations[n].callSigns by {
        if x.station == n && x.span in stations[n].callSigns {
          var k :| 0 <= k < |stations[n].callSigns| && stations[n].callSigns[k] == x.span;
          assert tagged[k] == x;
        }
      }
    }
  }

  ghost predicate AllLive(stations: seq<Station>) {
    forall i, c :: 0 <= i < |stations| && c in stations[i].callSigns ==> NonEmpty(c)
  }

  ghost predicate BothHold(stations: seq<Station>, i: nat, j: nat, sign: string, d: int) {
    && i < |stations| && j < |stations|
    && Held(stations[i].callSigns, sign, d) && Held(stations[j].callSigns, sign, d)
  }

  /** No day has two stations holding one sign. */
  ghost predicate OneHolderEach(stations: seq<Station>) {
    forall i, j, sign, d :: BothHold(stations, i, j, sign, d) ==> i == j
  }

  lemma ClashBreaksOneHolder(stations: seq<Station>, x: Holder, y: Holder)
    requires AllLive(stations) && x in AllHolders(stations) && y in AllHolders(stations) && Clash(x, y)
    ensures !OneHolderEach(stations)
  {
    HoldersMembers(stations, x);
    HoldersMembers(stations, y);
    OverlapIsACommonDay(x.span, y.span);
    var d :| Covers(x.span, d) && Covers(y.span, d);
    assert Held(stations[x.station].callSigns, x.span.sign, d);
    assert BothHold(stations, x.station, y.station, x.span.sign, d);
  }

  lemma TwoHoldersClash(stations: seq<Station>, i: nat, j: nat, sign: string, d: int) returns (x: Holder, y: Holder)
    requires AllLive(stations) && BothHold(stations, i, j, sign, d) && i != j
    ensures x in AllHolders(stations) && y in AllHolders(stations) && Clash(x, y) && x != y
  {
    var p :| 0 <= p < |stations[i].callSigns| && stations[i].callSigns[p].sign == sign && Covers(stations[i].callSigns[p], d);
    var q :| 0 <= q < |stations[j].callSigns| && stations[j].callSigns[q].sign == sign && Covers(stations[j].callSigns[q], d);
    x, y := Holder(i, stations[i].callSigns[p]), Holder(j, stations[j].callSigns[q]);
    HoldersMembers(stations, x);
    HoldersMembers(stations, y);
    OverlapIsACommonDay(x.span, y.span);
  }

  /** The count is zero exactly when every sign has at most one station on every day. */
  lemma ZeroMeansOneHolder(stations: seq<Station>)
    requires AllLive(stations)
    ensures ClashCount(AllHolders(stations)) == 0 <==> OneHolderEach(stations)
  {
    var h := AllHolders(stations);
    NoClashes(h);
    if ClashCount(h) != 0 {
      var i, j :| 0 <= i < j < |h| && Clash(h[i], h[j]);
      ClashBreaksOneHolder(stations, h[i], h[j]);
    } else {
      forall i, j, sign, d | BothHold(stations, i, j, sign, d) ensures i == j {
        if i != j {
          var x, y := TwoHoldersClash(stations, i, j, sign, d);
          ClashingPair(h, x, y);
        }
      }
    }
  }

  lemma ClashingPair(h: seq<Holder>, x: Holder, y: Holder)
    requires x in h && y in h && Clash(x, y)
    ensures exists i, j :: 0 <= i < j < |h| && Clash(h[i], h[j])
  {
    var p :| 0 <= p < |h| && h[p] == x;
    var q :| 0 <= q < |h| && h[q] == y;
    assert if p < q then Clash(h[p], h[q]) else Clash(h[q], h[p]);
  }

  // ---------------------------------------------------------------- what the count counts

  /** Two tenures of different stations: span `p` of station `i` and span `q` of station `j`. */
  datatype Quad = Quad(i: nat, p: nat, j: nat, q: nat)

  datatype Place = Place(i: nat, p: nat)

  predicate TenuresClash(stations: seq<Station>, i: nat, p: nat, c: CallSign)
    requires i < |stations| && p < |stations[i].callSigns|
  {
    stations[i].callSigns[p].sign == c.sign && Overlaps(stations[i].callSigns[p], c)
  }

  /** The places whose tenure clashes with `c`, a tenure of station `k`. */
  ghost function ClashingPlaces(stations: seq<Station>, k: nat, c: CallSign): set<Place> {
    set i: nat, p: nat | i < |stations| && p < |stations[i].callSigns| && i != k && TenuresClash(stations, i, p, c) :: Place(i, p)
  }

  /** The pairs of tenures of two stations, the earlier one first, that carry one sign and overlap. */
  ghost function ClashingPairs(stations: seq<Station>): set<Quad> {
    set i: nat, p: nat, j: nat, q: nat |
      i < j < |stations| && p < |stations[i].callSigns| && q < |stations[j].callSigns|
      && stations[i].callSigns[p].sign == stations[j].callSigns[q].sign
      && Overlaps(stations[i].callSigns[p], stations[j].callSigns[q]) :: Quad(i, p, j, q)
  }

  /** The list without the last tenure of its last station, or without that station if it has none. */
  function Shorter(stations: seq<Station>): seq<Station>
    requires stations != []
  {
    var n := |stations| - 1;
    var spans := stations[n].callSigns;
    if spans == [] then stations[..n] else stations[n := stations[n].(callSigns := spans[..|spans| - 1])]
  }

  function Size(stations: seq<Station>): nat {
    if stations == [] then 0 else Size(stations[..|stations| - 1]) + 1 + |stations[|stations| - 1].callSigns|
  }

  lemma ShorterIsSmaller(stations: seq<Station>)
    requires stations != []
    ensures Size(Shorter(stations)) < Size(stations)
  {
    var n := |stations| - 1;
    assert Shorter(stations)[..n] == stations[..n];
  }

  /** What the shorter list's holders lack. */
  lemma ShorterHolders(stations: seq<Station>)
    requires stations != []
    ensures var n := |stations| - 1; var spans := stations[n].callSigns;
      AllHolders(stations) == AllHolders(Shorter(stations)) + if spans == [] then [] else [Holder(n, spans[|spans| - 1])]
  {
    var n := |stations| - 1;
    var spans, short := stations[n].callSigns, Shorter(stations);
    assert short[..n] == stations[..n];
    if spans == [] {
      assert Tag(n, spans) == [];
    } else {
      assert Tag(n, spans) == Tag(n, spans[..|spans| - 1]) + [Holder(n, spans[|spans| - 1])];
    }
  }

  lemma ClashesSnoc(x: Holder, h: seq<Holder>, y: Holder)
    ensures ClashesWith(x, h + [y]) == ClashesWith(x, h) + if Clash(x, y) then 1 else 0
  {
    assert (h + [y])[..|h|] == h;
  }

  lemma {:induction false} CountSnoc(h: seq<Holder>, x: Holder)
    ensures ClashCount(h + [x]) == ClashCount(h) + ClashesWith(x, h)
  {
    hide ClashesWith, Clash;
    if h == [] {
      NoHolders();
      HeadCount(x, []);
      NoneToClash(x);
      assert [] + [x] == [x] + [];
    } else {
      var y, t := h[0], h[1..];
      assert h == [y] + t && h + [x] == [y] + (t + [x]);
      HeadCount(y, t);
      HeadCount(y, t + [x]);
      CountSnoc(t, x);
      ClashesSnoc(y, t, x);
      ClashesCons(x, y, t);
    }
  }

  lemma NoneToClash(x: Holder)
    ensures ClashesWith(x, []) == 0
  {
  }

  lemma ClashesCons(x: Holder, y: Holder, t: seq<Holder>)
    ensures ClashesWith(x, [y] + t) == ClashesWith(x, t) + if Clash(y, x) then 1 else 0
  {
    ClashesWithSplit(x, [y], t);
    assert [y][..0] == [];
  }

  lemma {:induction false} PlacesCount(stations: seq<Station>, k: nat, c: CallSign)
    ensures ClashesWith(Holder(k, c), AllHolders(stations)) == |ClashingPlaces(stations, k, c)|
    decreases Size(stations)
  {
    hide ClashesWith, AllHolders, Size, Overlaps;
    if stations == [] {
      NoStations(k, c);
    } else {
      var short := Shorter(stations);
      ShorterIsSmaller(stations);
      ShorterHolders(stations);
      PlacesCount(short, k, c);
      PlacesStep(stations, k, c);
      var n := |stations| - 1;
      var spans := stations[n].callSigns;
      if spans != [] { ClashesSnoc(Holder(k, c), AllHolders(short), Holder(n, spans[|spans| - 1])); }
      else { assert AllHolders(short) + [] == AllHolders(short); }
    }
  }

  lemma NoStations(k: nat, c: CallSign)
    ensures AllHolders([]) == [] && ClashesWith(Holder(k, c), AllHolders([])) == 0 && ClashCount(AllHolders([])) == 0
  {
  }

  predicate LastClashes(stations: seq<Station>, k: nat, c: CallSign)
    requires stations != []
  {
    var n := |stations| - 1;
    var spans := stations[n].callSigns;
    spans != [] && Clash(Holder(k, c), Holder(n, spans[|spans| - 1]))
  }

  lemma OverlapsSymmetric(x: CallSign, y: CallSign)
    ensures Overlaps(x, y) == Overlaps(y, x)
  {
  }

  lemma PlacesStep(stations: seq<Station>, k: nat, c: CallSign)
    requires stations != []
    ensures |ClashingPlaces(stations, k, c)| == |ClashingPlaces(Shorter(stations), k, c)| + if LastClashes(stations, k, c) then 1 else 0
  {
    hide Overlaps, ClashingPlaces, TenuresClash, Shorter, LastClashes;
    var n := |stations| - 1;
    var all, before := ClashingPlaces(stations, k, c), ClashingPlaces(Shorter(stations), k, c);
    var last := Place(n, if stations[n].callSigns == [] then 0 else |stations[n].callSigns| - 1);
    forall x: Place ensures x in all <==> x in before || (x == last && LastClashes(stations, k, c)) {
      PlaceStep(stations, k, c, x);
    }
    PlaceStep(stations, k, c, last);
    assert all == before + if LastClashes(stations, k, c) then {last} else {};
  }

  lemma PlaceStep(stations: seq<Station>, k: nat, c: CallSign, x: Place)
    requires stations != []
    ensures var n := |stations| - 1;
      var last := Place(n, if stations[n].callSigns == [] then 0 else |stations[n].callSigns| - 1);
      && (x in ClashingPlaces(stations, k, c) <==>
            x in ClashingPlaces(Shorter(stations), k, c) || (x == last && LastClashes(stations, k, c)))
      && last !in ClashingPlaces(Shorter(stations), k, c)
  {
    hide Overlaps, ClashingPlaces;
    var n, short := |stations| - 1, Shorter(stations);
    var spans := stations[n].callSigns;
    var last := Place(n, if spans == [] then 0 else |spans| - 1);
    PlaceIs(stations, k, c, x);
    PlaceIs(short, k, c, x);
    PlaceIs(short, k, c, last);
    if x.i < n { assert short[x.i] == stations[x.i]; }
    if spans != [] { OverlapsSymmetric(spans[|spans| - 1], c); }
  }

  lemma PlaceIs(stations: seq<Station>, k: nat, c: CallSign, x: Place)
    ensures x in ClashingPlaces(stations, k, c) <==>
      x.i < |stations| && x.p < |stations[x.i].callSigns| && x.i != k && TenuresClash(stations, x.i, x.p, c)
  {
    hide TenuresClash;
    assert x == Place(x.i, x.p);
  }

  /** The pairs whose later tenure is the last one of the list. */
  ghost function PairsWithLast(places: set<Place>, j: nat, q: nat): set<Quad> {
    set x | x in places :: Quad(x.i, x.p, j, q)
  }

  lemma {:induction false} PairsWithLastCount(places: set<Place>, j: nat, q: nat)
    ensures |PairsWithLast(places, j, q)| == |places|
    decreases places
  {
    if places != {} {
      var x :| x in places;
      var rest := places - {x};
      PairsWithLastCount(rest, j, q);
      assert PairsWithLast(places, j, q) == PairsWithLast(rest, j, q) + {Quad(x.i, x.p, j, q)};
    }
  }

  lemma PairsStep(stations: seq<Station>)
    requires stations != [] && stations[|stations| - 1].callSigns != []
    ensures var n := |stations| - 1; var m := |stations[n].callSigns| - 1;
      |ClashingPairs(stations)| == |ClashingPairs(Shorter(stations))|
        + |ClashingPlaces(Shorter(stations), n, stations[n].callSigns[m])|
  {
    hide Overlaps, ClashingPairs, ClashingPlaces, PairsWithLast, Shorter;
    var n, short := |stations| - 1, Shorter(stations);
    var m := |stations[n].callSigns| - 1;
    var c := stations[n].callSigns[m];
    var all, before, added := ClashingPairs(stations), ClashingPairs(short), PairsWithLast(ClashingPlaces(short, n, c), n, m);
    PairsWithLastCount(ClashingPlaces(short, n, c), n, m);
    forall x: Quad ensures x in all <==> x in before || x in added { PairStep(stations, x); }
    forall x: Quad ensures !(x in before && x in added) { PairStep(stations, x); }
    assert all == before + added;
    assert before !! added;
  }

  lemma PairStep(stations: seq<Station>, x: Quad)
    requires stations != [] && stations[|stations| - 1].callSigns != []
    ensures var n, short := |stations| - 1, Shorter(stations);
      var m := |stations[n].callSigns| - 1;
      var added := PairsWithLast(ClashingPlaces(short, n, stations[n].callSigns[m]), n, m);
      && (x in ClashingPairs(stations) <==> x in ClashingPairs(short) || x in added)
      && !(x in ClashingPairs(short) && x in added)
  {
    hide Overlaps, ClashingPairs, ClashingPlaces;
    var n, short := |stations| - 1, Shorter(stations);
    var m := |stations[n].callSigns| - 1;
    var c := stations[n].callSigns[m];
    PairIs(stations, x);
    PairIs(short, x);
    PlaceIs(short, n, c, Place(x.i, x.p));
    assert x in PairsWithLast(ClashingPlaces(short, n, c), n, m)
      <==> x.j == n && x.q == m && Place(x.i, x.p) in ClashingPlaces(short, n, c);
    if x.i < n { assert short[x.i] == stations[x.i]; }
    if x.j < n { assert short[x.j] == stations[x.j]; }
  }

  lemma PairIs(stations: seq<Station>, x: Quad)
    ensures x in ClashingPairs(stations) <==>
      && x.i < x.j < |stations| && x.p < |stations[x.i].callSigns| && x.q < |stations[x.j].callSigns|
      && stations[x.i].callSigns[x.p].sign == stations[x.j].callSigns[x.q].sign
      && Overlaps(stations[x.i].callSigns[x.p], stations[x.j].callSigns[x.q])
  {
    hide Overlaps;
    assert x == Quad(x.i, x.p, x.j, x.q);
  }

  lemma PairsWithoutSpans(stations: seq<Station>)
    requires stations != [] && stations[|stations| - 1].callSigns == []
    ensures ClashingPairs(stations) == ClashingPairs(Shorter(stations))
  {
    hide Overlaps;
  }

  /** What `concurrentHolders` counts: the pairs of tenures of two stations with one sign that
      overlap, each once. */
  lemma {:induction false} CountIsPairs(stations: seq<Station>)
    ensures ClashCount(AllHolders(stations)) == |ClashingPairs(stations)|
    decreases Size(stations)
  {
    hide ClashesWith, ClashCount, AllHolders, Size, Overlaps, ClashingPairs;
    if stations == [] {
      NoStations(0, CallSign("", OPEN, OPEN));
      NoPairs();
    } else {
      var n, short := |stations| - 1, Shorter(stations);
      var spans := stations[n].callSigns;
      ShorterIsSmaller(stations);
      ShorterHolders(stations);
      CountIsPairs(short);
      if spans == [] {
        PairsWithoutSpans(stations);
        assert AllHolders(short) + [] == AllHolders(short);
      } else {
        var x := Holder(n, spans[|spans| - 1]);
        CountSnoc(AllHolders(short), x);
        PlacesCount(short, n, x.span);
        PairsStep(stations);
      }
    }
  }

  lemma NoPairs()
    ensures ClashingPairs([]) == {}
  {
  }
}
