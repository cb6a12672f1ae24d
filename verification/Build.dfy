/** From source records to the settled list (cmd/station-data/main.go, the call signs of
  `buildStations` and `main`).

  Sorting leaves ties open, so what the build makes of the records is a relation: a list of spans
  is a possible history of a facility when some sorting of its records gives it. */
module Build {
  import opened Common
  import opened Spans
  import opened Sorting
  import opened History
  import opened Merge
  import opened FullPower
  import opened Holders
  import opened Clip

  /** A facility with its history and the Wikidata rows that name it by id; `located` says that
      it can be put on the map. */
  datatype Licence = Licence(id: string, licensed: bool, located: bool, current: string,
                             history: seq<HistoryRow>, rows: seq<WikidataRow>)

  /** The rows of a Wikidata item no kept facility claims. */
  datatype Item = Item(qid: string, located: bool, rows: seq<WikidataRow>)

  datatype Records = Records(licences: seq<Licence>, items: seq<Item>) {
    /** The sequence numbers of each facility's history are distinct. */
    ghost predicate Valid() {
      forall l :: l in licences ==> DistinctNumbers(l.history)
    }
  }

  ghost predicate DistinctNumbers(rows: seq<HistoryRow>) {
    forall i, j :: 0 <= i < j < |rows| ==> rows[i].seqNo != rows[j].seqNo
  }

  // ---------------------------------------------------------------- one facility

  ghost predicate Filed(rows: seq<HistoryRow>, ordered: seq<HistoryRow>) {
    SortedBy(ordered, BySeq()) && multiset(ordered) == multiset(rows)
  }

  ghost predicate Dated(rows: seq<WikidataRow>, ordered: seq<WikidataRow>) {
    SortedBy(ordered, ByDates()) && multiset(ordered) == multiset(rows)
  }

  lemma DatedMembers(rows: seq<WikidataRow>, ordered: seq<WikidataRow>)
    requires Dated(rows, ordered)
    ensures forall r :: r in ordered <==> r in rows
  {
    forall r ensures r in ordered <==> r in rows { assert r in multiset(ordered) <==> r in multiset(rows); }
  }

  /** What the history rule says of a facility. */
  ghost predicate ByHistory(l: Licence, norm: string -> string, sign: string, d: int) {
    if l.history == [] then norm(l.current) == sign
    else exists r :: InForce(l.history, r, d) && norm(r.sign) == sign
  }

  ghost predicate ByRow(rows: seq<WikidataRow>, norm: string -> string, sign: string, d: int) {
    exists row :: (row in rows && norm(row.sign) == sign && Covers(AsSpan(row, norm), d))
  }

  /** The merge leaves day `d` of a history to the history: its first span has a start, or ended
      by then, or starts by then after the merge. */
  ghost predicate LeftToHistory(own: seq<CallSign>, dated: seq<WikidataRow>, norm: string -> string, d: int)
    requires own != []
  {
    var first, start := own[0], Scan(dated, own[0], norm).start;
    first.from != OPEN || (first.to != OPEN && d >= first.to) || start == OPEN || start <= d
  }

  /** Who holds what, day by day: the history rule decides every day left to it, the preceding rows
      the days before; without a history the rows decide alone. */
  ghost predicate FacilityHolds(l: Licence, filed: seq<HistoryRow>, dated: seq<WikidataRow>, norm: string -> string,
                                sign: string, d: int)
  {
    var own := HistorySpans(filed, l.current, norm);
    if own == [] then Held(Compacted(AsSpans(dated, norm)), sign, d)
    else if LeftToHistory(own, dated, norm, d) then sign != "" && ByHistory(l, norm, sign, d)
    else Held(Compacted(Scan(dated, own[0], norm).before), sign, d)
  }

  method FacilitySpans(l: Licence, norm: string -> string)
    returns (spans: seq<CallSign>, ghost filed: seq<HistoryRow>, ghost dated: seq<WikidataRow>)
    requires DistinctNumbers(l.history)
    ensures Filed(l.history, filed) && Dated(l.rows, dated)
    ensures spans == Merged(HistorySpans(filed, l.current, norm), dated, norm) && NormalForm(spans)
    ensures forall sign, d :: Held(spans, sign, d) <==> FacilityHolds(l, filed, dated, norm, sign, d)
  {
    hide NormalForm, Held, Merged, HistorySpans, FacilityHolds;
    var own, ordered := SpansFromHistory(l.history, l.current, norm);
    filed := ordered;
    var byDate;
    spans, byDate := MergeWikidata(own, l.rows, norm);
    dated := byDate;
    MergeNormal(own, dated, norm);
    forall sign, d ensures Held(spans, sign, d) <==> FacilityHolds(l, filed, dated, norm, sign, d) {
      FacilityDays(l, filed, dated, norm, sign, d);
    }
  }

  /** The history before the merge holds exactly what the rule says. */
  lemma HistoryExactly(l: Licence, filed: seq<HistoryRow>, norm: string -> string, sign: string, d: int)
    requires DistinctNumbers(l.history) && Filed(l.history, filed)
    ensures Held(HistorySpans(filed, l.current, norm), sign, d) <==> sign != "" && ByHistory(l, norm, sign, d)
  {
    hide HistorySpans, InForce;
    if l.history == [] {
      assert filed == [] by { assert |multiset(filed)| == 0; }
      NoHistory(l.current, norm, sign, d);
    } else {
      HistoryFollowsRule(l.history, filed, l.current, norm, sign, d);
    }
  }

  lemma HistoryNormal(filed: seq<HistoryRow>, current: string, norm: string -> string)
    ensures NormalForm(HistorySpans(filed, current, norm))
  {
    CompactedNormal(if filed == [] then [CallSign(norm(current), OPEN, OPEN)] else SpansOf(Kept(filed), norm));
  }

  lemma FacilityDays(l: Licence, filed: seq<HistoryRow>, dated: seq<WikidataRow>, norm: string -> string,
                     sign: string, d: int)
    requires DistinctNumbers(l.history) && Filed(l.history, filed) && Dated(l.rows, dated)
    ensures Held(Merged(HistorySpans(filed, l.current, norm), dated, norm), sign, d)
       <==> FacilityHolds(l, filed, dated, norm, sign, d)
  {
    hide HistorySpans, ByHistory, Compacted, Held;
    var own := HistorySpans(filed, l.current, norm);
    HistoryNormal(filed, l.current, norm);
    HistoryExactly(l, filed, norm, sign, d);
    if own == [] {
      MergedAlone(dated, norm);
    } else if own[0].from != OPEN {
      MergeNormal(own, dated, norm);
    } else {
      MergeMeaning(own, dated, norm, sign, d);
      FirstHolds(own, sign, d);
      ScanBounds(dated, own[0], norm);
    }
  }

  lemma FirstHolds(s: seq<CallSign>, sign: string, d: int)
    requires NormalForm(s) && s != []
    ensures Covers(s[0], d) ==> (Held(s, sign, d) <==> sign == s[0].sign)
  {
    TailFacts(s, sign, d);
  }

  // ---------------------------------------------------------------- buildStations

  predicate OnMap(l: Licence) {
    (l.licensed || l.history != []) && l.located
  }

  /** Some sorting of the facility's records gives these spans. */
  ghost predicate FromLicence(l: Licence, norm: string -> string, spans: seq<CallSign>) {
    exists filed, dated :: FromSorted(l, norm, filed, dated, spans)
  }

  ghost predicate FromSorted(l: Licence, norm: string -> string, filed: seq<HistoryRow>, dated: seq<WikidataRow>,
                             spans: seq<CallSign>)
  {
    && Filed(l.history, filed) && Dated(l.rows, dated)
    && spans == Merged(HistorySpans(filed, l.current, norm), dated, norm)
  }

  /** Some sorting of the rows merges them into `before` with this result. */
  ghost predicate Takes(before: seq<CallSign>, rows: seq<WikidataRow>, norm: string -> string, after: seq<CallSign>) {
    exists dated :: Dated(rows, dated) && after == Merged(before, dated, norm)
  }

  /** Station `i` of the list is the facility at position `from[i]` of the records. */
  ghost predicate FacilityAt(records: Records, norm: string -> string, from: seq<nat>, s: Station, i: nat)
    requires i < |from|
  {
    && from[i] < |records.licences|
    && var l := records.licences[from[i]];
       OnMap(l) && s.id == "fcc:" + l.id && s.callSigns != [] && FromLicence(l, norm, s.callSigns)
  }

  /** The first loop's result: the kept facilities, in order, but for those left without a tenure. */
  ghost predicate Facilities(records: Records, norm: string -> string, from: seq<nat>, stations: seq<Station>,
                             read: nat)
  {
    && |from| == |stations| && read <= |records.licences|
    && (forall i :: 0 <= i < |from| ==> from[i] < read && FacilityAt(records, norm, from, stations[i], i))
    && (forall i, j :: 0 <= i < j < |from| ==> from[i] < from[j])
    && (forall k :: 0 <= k < read && OnMap(records.licences[k]) && k !in from ==>
          FromLicence(records.licences[k], norm, []))
  }

  method BuildFacilities(records: Records, norm: string -> string) returns (stations: seq<Station>, ghost from: seq<nat>)
    requires records.Valid()
    ensures Facilities(records, norm, from, stations, |records.licences|)
    ensures AllNormal(stations)
  {
    hide Facilities, NormalForm, Held, FacilityHolds, FromLicence, Merged, AllNormal;
    stations, from := [], [];
    NoFacilities(records, norm);
    for k := 0 to |records.licences|
      invariant Facilities(records, norm, from, stations, k)
    {
      var l := records.licences[k];
      if !l.licensed && |l.history| == 0 {
        FacilityLeftOut(records, norm, from, stations, k);
        continue;
      }
      if !l.located {
        FacilityLeftOut(records, norm, from, stations, k);
        continue;
      }
      var spans, filed, dated := FacilitySpans(l, norm);
      SortedGives(l, norm, filed, dated, spans);
      if |spans| > 0 {
        FacilityAdded(records, norm, from, stations, k, spans);
        stations := stations + [Station("fcc:" + l.id, spans)];
        from := from + [k];
      } else {
        FacilityLeftOut(records, norm, from, stations, k);
      }
    }
    FacilitiesNormal(records, norm, from, stations);
  }

  lemma NoFacilities(records: Records, norm: string -> string)
    ensures Facilities(records, norm, [], [], 0)
  {
  }

  lemma FacilityLeftOut(records: Records, norm: string -> string, from: seq<nat>, stations: seq<Station>, k: nat)
    requires k < |records.licences| && Facilities(records, norm, from, stations, k)
    requires OnMap(records.licences[k]) ==> FromLicence(records.licences[k], norm, [])
    ensures Facilities(records, norm, from, stations, k + 1)
  {
    hide FromLicence;
  }

  lemma FacilityAdded(records: Records, norm: string -> string, from: seq<nat>, stations: seq<Station>, k: nat,
                      spans: seq<CallSign>)
    requires k < |records.licences| && Facilities(records, norm, from, stations, k)
    requires OnMap(records.licences[k]) && spans != [] && FromLicence(records.licences[k], norm, spans)
    ensures var s := Station("fcc:" + records.licences[k].id, spans);
      Facilities(records, norm, from + [k], stations + [s], k + 1)
  {
    hide FromLicence;
    var more := from + [k];
    forall i | 0 <= i < |from| ensures FacilityAt(records, norm, more, stations[i], i) {
      assert FacilityAt(records, norm, from, stations[i], i);
    }
    forall j | 0 <= j < k + 1 && j !in more ensures j !in from {
      assert j in from ==> j in more;
    }
    assert more[|from|] in more;
  }

  lemma SortedGives(l: Licence, norm: string -> string, filed: seq<HistoryRow>, dated: seq<WikidataRow>,
                    spans: seq<CallSign>)
    requires FromSorted(l, norm, filed, dated, spans)
    ensures FromLicence(l, norm, spans)
  {
  }

  /** The positions among the first `count` that share a tenure with `spans`, each once, in order. */
  ghost predicate Matches(stations: seq<Station>, count: nat, spans: seq<CallSign>, matches: seq<nat>)
    requires count <= |stations|
  {
    && (forall i :: i in matches <==> 0 <= i < count && Shares(stations[i].callSigns, spans))
    && (forall i, j :: 0 <= i < j < |matches| ==> matches[i] < matches[j])
  }

  method Matching(stations: seq<Station>, count: nat, spans: seq<CallSign>) returns (matches: seq<nat>)
    requires count <= |stations|
    ensures Matches(stations, count, spans, matches)
  {
    hide Shares;
    matches := [];
    for i := 0 to count
      invariant forall j :: j in matches <==> 0 <= j < i && Shares(stations[j].callSigns, spans)
      invariant forall j, k :: 0 <= j < k < |matches| ==> matches[j] < matches[k]
    {
      var shared := SharesTenure(stations[i].callSigns, spans);
      if shared {
        assert forall j :: 0 <= j < |matches| ==> matches[j] in matches;
        matches := matches + [i];
      }
    }
  }

  /** Of the first `count` stations exactly the `i`th shares a tenure with `spans`. */
  ghost predicate OnlyMatch(stations: seq<Station>, count: nat, spans: seq<CallSign>, i: nat)
    requires count <= |stations|
  {
    i < count && forall j :: 0 <= j < count ==> (Shares(stations[j].callSigns, spans) <==> j == i)
  }

  ghost predicate NoMatch(stations: seq<Station>, count: nat, spans: seq<CallSign>)
    requires count <= |stations|
  {
    forall j :: 0 <= j < count ==> !Shares(stations[j].callSigns, spans)
  }

  /** Only the call signs of the `i`th station change. */
  ghost predicate OnlyChanges(before: seq<Station>, after: seq<Station>, i: nat)
    requires i < |before|
  {
    && |after| == |before| && after[i].id == before[i].id
    && forall j :: 0 <= j < |before| && j != i ==> after[j] == before[j]
  }

  /** What an item whose rows make up `spans` does to the stations: matching one facility it gives
      it its rows; matching none it becomes a station if it has a tenure and a place; matching
      several it is dropped. */
  ghost predicate Places(before: seq<Station>, after: seq<Station>, count: nat, item: Item, norm: string -> string,
                         spans: seq<CallSign>)
    requires count <= |before|
  {
    && Takes([], item.rows, norm, spans)
    && (forall i: nat :: OnlyMatch(before, count, spans, i) ==>
          OnlyChanges(before, after, i) && Takes(before[i].callSigns, item.rows, norm, after[i].callSigns))
    && (NoMatch(before, count, spans) ==>
          after == if spans != [] && item.located then before + [Station("wd:" + item.qid, spans)] else before)
    && (!NoMatch(before, count, spans) && (forall i: nat :: !OnlyMatch(before, count, spans, i)) ==> after == before)
  }

  /** The second loop: `lists` is the list of stations before each item and at the end, `made` the
      spans of each item. */
  ghost predicate Placed(records: Records, norm: string -> string, count: nat, lists: seq<seq<Station>>,
                         made: seq<seq<CallSign>>, read: nat)
  {
    && read <= |records.items| && |lists| == read + 1 && |made| == read
    && (forall k :: 0 <= k <= read ==> count <= |lists[k]|)
    && (forall k :: 0 <= k < read ==> Places(lists[k], lists[k + 1], count, records.items[k], norm, made[k]))
  }

  method PlaceItem(before: seq<Station>, count: nat, item: Item, norm: string -> string)
    returns (after: seq<Station>, ghost made: seq<CallSign>)
    requires count <= |before|
    ensures |after| >= |before| && Places(before, after, count, item, norm, made)
  {
    hide Merged, Matches, OnlyMatch, NoMatch, Takes, OnlyChanges;
    var spans, ordered := MergeWikidata([], item.rows, norm);
    TakesSorted([], item.rows, norm, ordered, spans);
    made := spans;
    var matches := Matching(before, count, spans);
    MatchCases(before, count, spans, matches);
    after := before;
    if |matches| == 1 {
      var i := matches[0];
      var merged, again := MergeWikidata(before[i].callSigns, item.rows, norm);
      TakesSorted(before[i].callSigns, item.rows, norm, again, merged);
      after := before[i := before[i].(callSigns := merged)];
      ChangedOne(before, i, merged);
    } else if |matches| == 0 {
      if |spans| > 0 && item.located {
        after := before + [Station("wd:" + item.qid, spans)];
      }
    }
  }

  lemma TakesSorted(before: seq<CallSign>, rows: seq<WikidataRow>, norm: string -> string, dated: seq<WikidataRow>,
                    after: seq<CallSign>)
    requires SortedBy(dated, ByDates()) && multiset(dated) == multiset(rows) && after == Merged(before, dated, norm)
    ensures Takes(before, rows, norm, after)
  {
    assert Dated(rows, dated);
  }

  lemma ChangedOne(before: seq<Station>, i: nat, spans: seq<CallSign>)
    requires i < |before|
    ensures OnlyChanges(before, before[i := before[i].(callSigns := spans)], i)
  {
  }

  /** How many positions match tells the three cases apart. */
  lemma MatchCases(stations: seq<Station>, count: nat, spans: seq<CallSign>, matches: seq<nat>)
    requires count <= |stations| && Matches(stations, count, spans, matches)
    ensures NoMatch(stations, count, spans) <==> matches == []
    ensures forall i: nat :: OnlyMatch(stations, count, spans, i) <==> matches == [i]
    ensures |matches| == 1 ==> matches[0] < count
  {
    hide Shares;
    if matches == [] {
      forall j | 0 <= j < count ensures !Shares(stations[j].callSigns, spans) { assert j !in matches; }
    } else {
      assert matches[0] in matches;
    }
    forall i: nat ensures OnlyMatch(stations, count, spans, i) <==> matches == [i] {
      if OnlyMatch(stations, count, spans, i) {
        assert i in matches && (|matches| > 1 ==> matches[0] < matches[1]);
        forall k | 0 <= k < |matches| ensures matches[k] == i { assert matches[k] in matches; }
      }
      if matches == [i] {
        forall j | 0 <= j < count ensures Shares(stations[j].callSigns, spans) <==> j == i {
          assert j in matches <==> j == i;
        }
      }
    }
  }

  method BuildStations(records: Records, norm: string -> string)
    returns (stations: seq<Station>, ghost from: seq<nat>, ghost lists: seq<seq<Station>>, ghost made: seq<seq<CallSign>>)
    requires records.Valid()
    ensures Placed(records, norm, |from|, lists, made, |records.items|) && stations == lists[|records.items|]
    ensures Facilities(records, norm, from, lists[0], |records.licences|)
    ensures AllNormal(stations)
  {
    hide Facilities, Places, Built;
    stations, from := BuildFacilities(records, norm);
    FacilitiesCount(records, norm, from, stations);
    var count := |stations|;
    lists, made := [stations], [];
    for k := 0 to |records.items|
      invariant |from| == count
      invariant Placed(records, norm, count, lists, made, k) && stations == lists[k]
      invariant Facilities(records, norm, from, lists[0], |records.licences|)
    {
      ghost var spans;
      stations, spans := PlaceItem(stations, count, records.items[k], norm);
      lists, made := lists + [stations], made + [spans];
    }
    BuiltIs(records, norm, from, lists, made);
    BuiltNormal(records, norm, from, lists, made, |records.items|);
  }

  lemma FacilitiesCount(records: Records, norm: string -> string, from: seq<nat>, stations: seq<Station>)
    requires Facilities(records, norm, from, stations, |records.licences|)
    ensures |from| == |stations|
  {
  }

  // ---------------------------------------------------------------- what the build keeps

  lemma FromLicenceNormal(l: Licence, norm: string -> string, spans: seq<CallSign>)
    requires FromLicence(l, norm, spans)
    ensures NormalForm(spans)
  {
    hide Merged, HistorySpans, NormalForm;
    var filed, dated :| FromSorted(l, norm, filed, dated, spans);
    HistoryNormal(filed, l.current, norm);
    MergeNormal(HistorySpans(filed, l.current, norm), dated, norm);
  }

  lemma TakesNormal(before: seq<CallSign>, rows: seq<WikidataRow>, norm: string -> string, after: seq<CallSign>)
    requires NormalForm(before) && Takes(before, rows, norm, after)
    ensures NormalForm(after)
  {
    hide Merged, NormalForm;
    var dated :| Dated(rows, dated) && after == Merged(before, dated, norm);
    MergeNormal(before, dated, norm);
  }

  lemma TakesAttested(before: seq<CallSign>, rows: seq<WikidataRow>, norm: string -> string, after: seq<CallSign>,
                      sign: string, d: int)
    requires NormalForm(before) && Takes(before, rows, norm, after) && Held(after, sign, d)
    ensures Held(before, sign, d) || ByRow(rows, norm, sign, d)
  {
    hide Merged, Held, NormalForm;
    var dated :| Dated(rows, dated) && after == Merged(before, dated, norm);
    DatedMembers(rows, dated);
    MergeInventsNothing(before, dated, norm, sign, d);
  }

  lemma LicenceAttested(l: Licence, norm: string -> string, spans: seq<CallSign>, sign: string, d: int)
    requires DistinctNumbers(l.history) && FromLicence(l, norm, spans) && Held(spans, sign, d)
    ensures ByHistory(l, norm, sign, d) || ByRow(l.rows, norm, sign, d)
  {
    hide Merged, HistorySpans, Held, NormalForm, ByHistory;
    var filed, dated :| FromSorted(l, norm, filed, dated, spans);
    HistoryNormal(filed, l.current, norm);
    HistoryExactly(l, filed, norm, sign, d);
    TakesSorted(HistorySpans(filed, l.current, norm), l.rows, norm, dated, spans);
    TakesAttested(HistorySpans(filed, l.current, norm), l.rows, norm, spans, sign, d);
  }

  /** What one item does to one position: it stays, takes the item's rows, or is new. */
  ghost predicate PlacedAt(before: seq<Station>, after: seq<Station>, count: nat, item: Item, norm: string -> string,
                           spans: seq<CallSign>, i: nat)
    requires count <= |before| && i < |after|
  {
    || (i < |before| && after[i] == before[i] && (i < count ==> !OnlyMatch(before, count, spans, i)))
    || (i < count && OnlyMatch(before, count, spans, i) && after[i].id == before[i].id
        && Takes(before[i].callSigns, item.rows, norm, after[i].callSigns))
    || (i == |before| && NoMatch(before, count, spans) && item.located && spans != []
        && after[i] == Station("wd:" + item.qid, spans) && Takes([], item.rows, norm, spans))
  }

  lemma EachPosition(before: seq<Station>, after: seq<Station>, count: nat, item: Item, norm: string -> string,
                     spans: seq<CallSign>, i: nat)
    requires count <= |before| && i < |after| && Places(before, after, count, item, norm, spans)
    ensures PlacedAt(before, after, count, item, norm, spans, i)
  {
    hide Takes, Shares;
    if j: nat :| OnlyMatch(before, count, spans, j) {
      assert OnlyChanges(before, after, j);
    }
  }

  /** The records behind a build. */
  ghost predicate Built(records: Records, norm: string -> string, from: seq<nat>, lists: seq<seq<Station>>,
                        made: seq<seq<CallSign>>)
  {
    && records.Valid()
    && Placed(records, norm, |from|, lists, made, |records.items|)
    && Facilities(records, norm, from, lists[0], |records.licences|)
  }

  lemma FacilitiesNormal(records: Records, norm: string -> string, from: seq<nat>, stations: seq<Station>)
    requires Facilities(records, norm, from, stations, |records.licences|)
    ensures AllNormal(stations)
  {
    hide NormalForm, FromLicence;
    forall i | 0 <= i < |stations| ensures NormalForm(stations[i].callSigns) {
      assert FacilityAt(records, norm, from, stations[i], i);
      FromLicenceNormal(records.licences[from[i]], norm, stations[i].callSigns);
    }
  }

  lemma {:induction false} BuiltNormal(records: Records, norm: string -> string, from: seq<nat>,
                                       lists: seq<seq<Station>>, made: seq<seq<CallSign>>, k: nat)
    requires Built(records, norm, from, lists, made) && k <= |records.items|
    ensures AllNormal(lists[k])
  {
    hide NormalForm, Facilities, Places, Takes, PlacedAt;
    if k == 0 {
      FacilitiesNormal(records, norm, from, lists[0]);
    } else {
      BuiltNormal(records, norm, from, lists, made, k - 1);
      StepNormal(lists[k - 1], lists[k], |from|, records.items[k - 1], norm, made[k - 1]);
    }
  }

  lemma StepNormal(before: seq<Station>, after: seq<Station>, count: nat, item: Item, norm: string -> string,
                   spans: seq<CallSign>)
    requires count <= |before| && AllNormal(before) && Places(before, after, count, item, norm, spans)
    ensures AllNormal(after)
  {
    hide NormalForm, Takes, Places, OnlyMatch, NoMatch;
    NothingNormal();
    forall i | 0 <= i < |after| ensures NormalForm(after[i].callSigns) {
      EachPosition(before, after, count, item, norm, spans, i);
      if i < |before| && Takes(before[i].callSigns, item.rows, norm, after[i].callSigns) {
        TakesNormal(before[i].callSigns, item.rows, norm, after[i].callSigns);
      }
      if Takes([], item.rows, norm, after[i].callSigns) { TakesNormal([], item.rows, norm, after[i].callSigns); }
    }
  }

  lemma NothingNormal()
    ensures NormalForm([])
  {
  }

  /** Item `j` gave its rows to station `i`: it matched that facility and no other, or it matched
      none and became that station. */
  ghost predicate Gave(records: Records, count: nat, lists: seq<seq<Station>>, made: seq<seq<CallSign>>, j: nat, i: nat)
    requires j < |lists| && j < |made| && j < |records.items| && count <= |lists[j]|
  {
    if i < count then OnlyMatch(lists[j], count, made[j], i)
    else i == |lists[j]| && NoMatch(lists[j], count, made[j]) && records.items[j].located && made[j] != []
  }

  /** After `k` items, station `i` has this sign on this day from its own records or from an item
      that was given to it. */
  ghost predicate Attested(records: Records, norm: string -> string, from: seq<nat>, lists: seq<seq<Station>>,
                           made: seq<seq<CallSign>>, k: nat, i: nat, sign: string, d: int)
    requires Built(records, norm, from, lists, made) && k <= |records.items|
  {
    || (i < |from| && from[i] < |records.licences| && var l := records.licences[from[i]];
          ByHistory(l, norm, sign, d) || ByRow(l.rows, norm, sign, d))
    || (exists j: nat :: j < k && Gave(records, |from|, lists, made, j, i)
          && ByRow(records.items[j].rows, norm, sign, d))
  }

  /** Every day of every station is attested by a record that was really used for it. */
  lemma {:induction false} BuiltAttested(records: Records, norm: string -> string, from: seq<nat>,
                                         lists: seq<seq<Station>>, made: seq<seq<CallSign>>, k: nat, i: nat,
                                         sign: string, d: int)
    requires Built(records, norm, from, lists, made) && k <= |records.items|
    requires i < |lists[k]| && Held(lists[k][i].callSigns, sign, d)
    ensures Attested(records, norm, from, lists, made, k, i, sign, d)
  {
    hide Held, NormalForm, Takes, ByRow, ByHistory, FromLicence, OnlyMatch, NoMatch, Places;
    if k == 0 {
      assert FacilityAt(records, norm, from, lists[0][i], i);
      var l := records.licences[from[i]];
      assert l in records.licences;
      LicenceAttested(l, norm, lists[0][i].callSigns, sign, d);
    } else {
      var before, after, item := lists[k - 1], lists[k], records.items[k - 1];
      EachPosition(before, after, |from|, item, norm, made[k - 1], i);
      BuiltNormal(records, norm, from, lists, made, k - 1);
      NothingNormal();
      if i < |before| {
        if after[i] != before[i] {
          TakesAttested(before[i].callSigns, item.rows, norm, after[i].callSigns, sign, d);
        }
        if Held(before[i].callSigns, sign, d) {
          BuiltAttested(records, norm, from, lists, made, k - 1, i, sign, d);
        } else {
          assert Gave(records, |from|, lists, made, k - 1, i);
        }
      } else {
        HeldNothing(sign, d);
        TakesAttested([], item.rows, norm, after[i].callSigns, sign, d);
        assert Gave(records, |from|, lists, made, k - 1, i);
      }
    }
  }

  /** Nothing is lost on the way: a station keeps its place and its id, and its call signs change
      only when an item is given to it. */
  lemma {:induction false} StationStays(records: Records, norm: string -> string, from: seq<nat>,
                                        lists: seq<seq<Station>>, made: seq<seq<CallSign>>, k: nat, m: nat, i: nat)
    requires Built(records, norm, from, lists, made) && k <= m <= |records.items| && i < |lists[k]|
    ensures i < |lists[m]| && lists[m][i].id == lists[k][i].id
    ensures (forall j: nat :: k <= j < m ==> !Gave(records, |from|, lists, made, j, i)) ==>
      lists[m][i] == lists[k][i]
    decreases m
  {
    hide Takes, OnlyMatch, NoMatch, Places, Facilities;
    if k < m {
      StationStays(records, norm, from, lists, made, k, m - 1, i);
      NeverShorter(lists[m - 1], lists[m], |from|, records.items[m - 1], norm, made[m - 1]);
      EachPosition(lists[m - 1], lists[m], |from|, records.items[m - 1], norm, made[m - 1], i);
      if forall j: nat :: k <= j < m ==> !Gave(records, |from|, lists, made, j, i) {
        assert !Gave(records, |from|, lists, made, m - 1, i);
      }
    }
  }

  lemma NeverShorter(before: seq<Station>, after: seq<Station>, count: nat, item: Item, norm: string -> string,
                     spans: seq<CallSign>)
    requires count <= |before| && Places(before, after, count, item, norm, spans)
    ensures |after| >= |before|
  {
    hide Takes, Shares;
    if j: nat :| OnlyMatch(before, count, spans, j) { assert OnlyChanges(before, after, j); }
  }

  /** A located item with a tenure that matches no facility is in the final list, as it was made. */
  lemma ItemAppears(records: Records, norm: string -> string, from: seq<nat>, lists: seq<seq<Station>>,
                    made: seq<seq<CallSign>>, j: nat)
    requires Built(records, norm, from, lists, made) && j < |records.items|
    requires records.items[j].located && made[j] != [] && NoMatch(lists[j], |from|, made[j])
    ensures Station("wd:" + records.items[j].qid, made[j]) in lists[|records.items|]
  {
    var i := |lists[j]|;
    assert Places(lists[j], lists[j + 1], |from|, records.items[j], norm, made[j]);
    assert lists[j + 1][i] == Station("wd:" + records.items[j].qid, made[j]);
    hide Places, Facilities, NoMatch;
    forall k: nat | j + 1 <= k < |records.items| ensures !Gave(records, |from|, lists, made, k, i) {
      StationStays(records, norm, from, lists, made, j + 1, k, i);
    }
    StationStays(records, norm, from, lists, made, j + 1, |records.items|, i);
    assert lists[|records.items|][i] == lists[j + 1][i];
  }

  // ---------------------------------------------------------------- main

  /** Which days of a built station survive to the end. */
  ghost predicate Survives(built: seq<Station>, facilities: map<string, Facility>, i: nat, sign: string, d: int)
    requires i < |built|
  {
    var preferred := PreferredAll(built, facilities);
    && Held(built[i].callSigns, sign, d)
    && !(IsClassA(built[i], facilities) && FullPowerHolds(built, facilities, sign, d))
    && !ClippedAway(preferred[i], Ends(preferred), sign, d)
  }

  /** A day is lost only to a full-power holder or to the clip, and then it is lost. */
  lemma SettledDays(built: seq<Station>, facilities: map<string, Facility>, i: nat, sign: string, d: int)
    requires AllNormal(built) && i < |built|
    ensures var s := Clipped(PreferredAll(built, facilities))[i];
      && s.id == built[i].id
      && (Held(s.callSigns, sign, d) <==> Survives(built, facilities, i, sign, d))
      && (Held(s.callSigns, sign, d) ==> s in DropEmpty(Clipped(PreferredAll(built, facilities))))
  {
    hide Ends, NormalForm, ClippedAway, FullPowerHolds, Preferred, ClipSpans;
    var preferred := PreferredAll(built, facilities);
    var s := Clipped(preferred)[i];
    PreferMeaning(built, facilities, i, sign, d);
    ClipExactly(preferred[i], Ends(preferred), sign, d);
    assert s == ClipStation(preferred[i], Ends(preferred));
    DropEmptyMembers(Clipped(preferred), s);
    HeldNothing(sign, d);
  }

  /** From the records to the list that is written.  The settled list is what the stages make of the
      built one, every station of it with a tenure and in normal form; day by day, a station holds
      exactly what the build gave it and neither a full-power holder nor the clip took; no Class A
      station holds what a full-power one holds; and the reported number is zero exactly when no day
      has two stations with one sign. */
  method StationData(records: Records, facilities: map<string, Facility>, norm: string -> string)
    returns (settled: seq<Station>, ambiguous: nat, ghost from: seq<nat>, ghost lists: seq<seq<Station>>,
             ghost made: seq<seq<CallSign>>)
    requires records.Valid()
    ensures Built(records, norm, from, lists, made)
    ensures settled == DropEmpty(Clipped(PreferredAll(lists[|records.items|], facilities)))
    ensures forall s :: s in settled ==> NormalForm(s.callSigns) && s.callSigns != []
    ensures var built := lists[|records.items|]; forall i: nat, sign, d | i < |built| ::
      Survives(built, facilities, i, sign, d) ==>
      exists s :: s in settled && s.id == built[i].id && Held(s.callSigns, sign, d)
    ensures var built := lists[|records.items|]; forall s, sign, d | s in settled && Held(s.callSigns, sign, d) ::
      exists i: nat :: i < |built| && built[i].id == s.id && Survives(built, facilities, i, sign, d)
    ensures forall s, t, sign, d | s in settled && t in settled && IsClassA(s, facilities) && IsFullPower(t, facilities) ::
      !(Held(s.callSigns, sign, d) && Held(t.callSigns, sign, d))
    ensures ambiguous == 0 <==> OneHolderEach(settled)
  {
    hide Built, Held, NormalForm, Clipped, PreferredAll, ClashCount, OneHolderEach, AllHolders, IsClassA, IsFullPower,
      DropEmpty, Survives;
    var built;
    built, from, lists, made := BuildStations(records, norm);
    BuiltIs(records, norm, from, lists, made);
    var stations := new Station[|built|](i requires 0 <= i < |built| => built[i]);
    assert stations[..] == built;
    settled, ambiguous := Settle(stations, facilities);
    SettledStations(built, facilities, settled);
    NormalIsLive(settled);
    ZeroMeansOneHolder(settled);
  }

  lemma BuiltIs(records: Records, norm: string -> string, from: seq<nat>, lists: seq<seq<Station>>,
                made: seq<seq<CallSign>>)
    requires records.Valid() && Placed(records, norm, |from|, lists, made, |records.items|)
    requires Facilities(records, norm, from, lists[0], |records.licences|)
    ensures Built(records, norm, from, lists, made)
  {
  }

  lemma SettledStations(built: seq<Station>, facilities: map<string, Facility>, settled: seq<Station>)
    requires AllNormal(built) && settled == DropEmpty(Clipped(PreferredAll(built, facilities)))
    ensures forall s :: s in settled ==> NormalForm(s.callSigns) && s.callSigns != []
    ensures forall i: nat, sign, d | i < |built| ::
      Survives(built, facilities, i, sign, d) ==>
      exists s :: s in settled && s.id == built[i].id && Held(s.callSigns, sign, d)
    ensures forall s, sign, d | s in settled && Held(s.callSigns, sign, d) ::
      exists i: nat :: i < |built| && built[i].id == s.id && Survives(built, facilities, i, sign, d)
    ensures forall s, t, sign, d | s in settled && t in settled && IsClassA(s, facilities) && IsFullPower(t, facilities) ::
      !(Held(s.callSigns, sign, d) && Held(t.callSigns, sign, d))
  {
    hide Held, NormalForm, Clipped, PreferredAll, IsClassA, IsFullPower, DropEmpty, Survives;
    forall s | s in settled ensures NormalForm(s.callSigns) && s.callSigns != [] {
      SettledFacts(built, facilities, s, s, "", 0);
    }
    forall i: nat, sign, d | i < |built| && Survives(built, facilities, i, sign, d)
      ensures exists s :: s in settled && s.id == built[i].id && Held(s.callSigns, sign, d)
    {
      SettledDays(built, facilities, i, sign, d);
    }
    forall s, sign, d | s in settled && Held(s.callSigns, sign, d)
      ensures exists i: nat :: i < |built| && built[i].id == s.id && Survives(built, facilities, i, sign, d)
    {
      var i := SettledFrom(built, facilities, s);
      SettledDays(built, facilities, i, sign, d);
    }
    forall s, t, sign, d | s in settled && t in settled && IsClassA(s, facilities) && IsFullPower(t, facilities)
      ensures !(Held(s.callSigns, sign, d) && Held(t.callSigns, sign, d))
    {
      SettledFacts(built, facilities, s, t, sign, d);
    }
  }

  lemma NormalIsLive(stations: seq<Station>)
    requires forall s :: s in stations ==> NormalForm(s.callSigns)
    ensures AllLive(stations)
  {
    forall i, c | 0 <= i < |stations| && c in stations[i].callSigns ensures NonEmpty(c) {
      assert stations[i] in stations;
      var k :| 0 <= k < |stations[i].callSigns| && stations[i].callSigns[k] == c;
      assert Live(stations[i].callSigns[k]);
    }
  }
}
