# Loomarr, modelled and verified in Dafny

Loomarr turns a media library into television channels. This project models the parts of it
whose correctness is an argument rather than a lookup, and proves what they are for. Everything
is stated for all inputs, all runs or all schedules; `dafny verify dfyconfig.toml` checks it.

**Call-sign tenures** (`cmd/station-data/main.go`): `Spans`, `Sorting`, `History`, `Merge`,
`FullPower`, `Holders`, `Clip`, and `Build`, which puts the stages together. A station's history
is a list of half-open date spans, open at an end where the date is `""`. A date is a natural number, `OPEN` (0) standing for `""`, so that dates
compare as the strings do. A list of spans denotes the facts (sign, day) it holds, for days of all
of `int`. Each stage of the build is proved to do one plain thing to those facts. Call-sign
normalisation is a parameter `norm: string -> string`, `""` meaning unparseable.

**Generations and the database cutover** (`cmd/loomarr/main.go`): `Lifecycle` is the process: the
admission gate for lifecycle requests, one generation (`runOnce`), and the restart loop (`run`).
Everything outside the process that can go either way in a generation is an input (`Env`):
which database opens, whether building, listening, draining, closing, copying, persisting and
restoring work, and what stops the server. A log records what was done to the databases and the
bootstrap file. `LifecycleRuns` proves what holds over every run, `LifecycleEvents` says what one
generation logs and leaves, in the words of its inputs.

**Stored-block PNG** (`cmd/image-bench/main.go`): `Bytes`, `Zlib`, `Png` model the encoder as it
writes to an output that may fail at any byte, next to readers written from RFC 1950 (section
2.2), RFC 1951 (sections 3.2.3 and 3.2.4) and the W3C PNG specification (sections 5.3 and 9.2).
Both checksums are parameters, the same for writer and reader. `Ranks` is the nearest-rank percentile.

**Image slots** (`design/image-slot.js`): `SlotStore` is the sidecar store as a state machine over
its events, with a class whose methods are its functions and callbacks; `Reframe` is the pan, zoom
and resize geometry over `real`.

**Pseudo-class CSS** (`design/support.js`): `PseudoCss` gives the scanners, written as the loops they
are, a tokeniser as their meaning; `CssLaws` proves that stripping comments keeps the tokens;
`Importantify` that marking declarations is stable on every string; `CssMeaning` says what both do to
texts written out character by character.

**Makefile reader** (`cmd/dev-docs/main.go`): `MakeDocs`, `MakeLaws`, `MakeMeaning`. **Artwork batch**
(`internal/api/channeltimeline.go`): `Thumbs`. **Marker splice** (`cmd/arch-docs/render.go`): `Splice`.

Where the code and its own words differ, the model follows the code, and where a promise has a
limit the limit is stated exactly:

- `mergeWikidata`'s comment says an earlier sign must have ended before the first FCC one did; the
  code (line 376) also takes one that ended on the same day.
- The same comment says that the first FCC span starts where the earlier signs end. A row recorded as
  ending before it began can leave a later start standing (`Merge.InvertedRowKeepsDate`);
  `Merge.StartsWhereTheyEnd` says exactly when.
- `image-slot.js` says (lines 199-202) that a save requested in mid-flight is re-fired. It is, but a
  save that finds no writer leaves nothing behind to re-fire it: `SlotStore.MissedSaveIsLost` is a
  run that ends loaded, saved, idle and not dirty with the last write out of date.
  `SlotStore.ExactlyUpToDate` says exactly which runs do not.
- `storedBenchmarkZlib` writes no final block for empty input, so that stream does not decode;
  `Zlib.StoredRoundTrip` says that this is the only such input.
- `encodeStableBenchmarkPNG` puts any stream into one chunk, and a chunk holds at most 2^31 - 1 bytes
  (section 5.3 of the PNG specification): `Png.PngRoundTrip` says exactly which images read back,
  `Png.TooTallIsLost` is one that does not.

## Model

| member | source | states |
|---|---|---|
| Spans.Compact | cmd/station-data/main.go:421-449 | the in-place pass over `spans[:0]` computes the same list as an ordinary fold: no write reaches a span not yet read |
| Spans.CompactedNormal | cmd/station-data/main.go:418-449 | on any input, unsorted or contradictory, the result has only non-empty spans with a sign, strictly ordered, disjoint, and no two neighbours that could be one |
| Spans.NormalOrder | cmd/station-data/main.go:418-449 | in such a result any two spans, not just neighbours, are disjoint and in order, and only the outer ends are open |
| Spans.StepRule | cmd/station-data/main.go:427-446 | the rule for contradictory spans, day by day: a later start takes over from its day on, a span that starts no later than the one before it only adds the days after that one ends |
| Spans.CompactedRule | cmd/station-data/main.go:421-449 | the same for the whole pass, on any input: what one more span does to the facts, dropped spans included; with the normal form this leaves one result only |
| Spans.CompactedInventsNothing | cmd/station-data/main.go:421-449 | on any input, no (sign, day) is held that was not held before |
| Spans.NormalFixed | cmd/station-data/main.go:421-449 | a list already in normal form is left alone |
| Spans.CompactedIdempotent | cmd/station-data/main.go:421-449 | compacting twice is compacting once, on any input |
| Spans.CompactedKeepsFacts | cmd/station-data/main.go:421-449 | on input ordered by start in which different signs never overlap, exactly the facts with a parseable sign are kept |
| Spans.NormalUnique | cmd/station-data/main.go:421-449 | two normal forms that denote the same facts are the same list |
| Spans.CompactedCanonical | cmd/station-data/main.go:421-449 | consistent inputs that denote the same facts compact to the same list |
| History.SpansFromHistory | cmd/station-data/main.go:321-348 | the loops that push and pop the correction stack and close each span give the stack of the sorted rows, in normal form |
| History.KeptInvariant | cmd/station-data/main.go:322-332 | the stack is strictly increasing in date and in sequence number, holds only rows that count, and every row that counts is on it or superseded by a row on it |
| History.CoveringInForce | cmd/station-data/main.go:314-332 | the stack entry whose span covers a day is the row in force on that day |
| History.InForceUnique | cmd/station-data/main.go:314-332 | at most one row is in force on a day |
| History.HistoryFollowsRule | cmd/station-data/main.go:314-348 | for rows in any order with distinct sequence numbers, a sign is held on a day exactly when it is the parseable sign of the row in force: the last filed of the eligible rows (the first, and every later dated one) begun by then or, before all of them, the one that begins first |
| History.NoHistory | cmd/station-data/main.go:344-347 | without rows the current sign, if parseable, is held for ever, and nothing else |
| Merge.MergeWikidata | cmd/station-data/main.go:353-388 | the sort, the scan and the three exits compute the merge, for any way the sort breaks ties; `PreludeInOrder`, `PreludeRule`, `StartInPlainTerms` and `MergeMeaning` say what it is in the rows' own words |
| Merge.PreludeInOrder | cmd/station-data/main.go:372-378 | for any rows, the spans put in front are those of the rows with another parseable sign and an end by that of the first FCC span, one for one, in the order of the rows |
| Merge.PreludeRule | cmd/station-data/main.go:372-387 | the days before the start, for rows that may contradict each other, row by row: a later start takes over, an earlier or equal one adds only the days after the last end |
| Merge.KoyAndKool | cmd/station-data/main.go:433-435 | the source's example: KOY 1953-1954 and KOOL 1953-1982 before KSAZ give KOY to 1954, KOOL to 1982, KSAZ from then |
| Merge.StartInPlainTerms | cmd/station-data/main.go:350-386 | when every row that has an end has a day: the first FCC sign is held from the last end of a preceding row or, if none precedes, from the earliest date a row gives it, or for ever back |
| Merge.ScanBefore | cmd/station-data/main.go:372-378 | the spans put in front are exactly those of the rows with another parseable sign that ended by the first FCC span's end |
| Merge.ScanBounds | cmd/station-data/main.go:370-385 | all of them end by the computed start, and the start is no later than the first span's end |
| Merge.ScanStart | cmd/station-data/main.go:376-384 | when every preceding row has a day, the start is where one of the preceding tenures ends (with ScanBounds, the last one); when nothing precedes, it is the earliest dated start the rows give the first sign |
| Merge.StartsWhereTheyEnd | cmd/station-data/main.go:376-384 | for any rows at all: when something precedes, the start is the last preceding end exactly unless every date given to the first sign before that lies after all those ends |
| Merge.InvertedRowKeepsDate | cmd/station-data/main.go:379-383 | two rows for which it is not: the one that precedes ends before it began |
| Merge.CompactedAppend | cmd/station-data/main.go:387 | joining the prelude to the history loses no fact at the seam |
| Merge.MergeMeaning | cmd/station-data/main.go:350-388 | on a normal form open at the start: from the end of its first span on nothing changes, the first sign alone is held from the computed start to that end, and earlier days are exactly the prelude's |
| Merge.PreludeComesFromRows | cmd/station-data/main.go:372-378 | every day before the start that is filled is filled by a preceding row that covers it with that sign |
| Merge.PreludeKeepsRows | cmd/station-data/main.go:372-387 | when the rows do not contradict each other, the days before the start are exactly those of the preceding rows, each under its own sign |
| Merge.MergeNormal | cmd/station-data/main.go:353-388 | a normal form comes back as a normal form, and one whose first span has a start comes back unchanged |
| Merge.MergeAlone | cmd/station-data/main.go:360-366 | without FCC history nothing is invented, and if the rows do not contradict each other nothing parseable is lost |
| Merge.MergeInventsNothing | cmd/station-data/main.go:353-388 | whichever exit is taken, a day held after the merge was held before or is covered by a row of that sign |
| FullPower.OverlapIsACommonDay | cmd/station-data/main.go:238-240 | `overlaps` on non-empty spans means that they have a day in common, at open ends too |
| FullPower.SharesTenure | cmd/station-data/main.go:226-236 | true exactly when a span of each carries one sign and they overlap |
| FullPower.SharesMeaning | cmd/station-data/main.go:226-240 | holding one sign on one day always counts, and when every span has a day nothing else does |
| FullPower.Subtract | cmd/station-data/main.go:268-287 | the nested loops, one taken span after another, give the pieces the two lemmas below describe |
| FullPower.SubtractFacts | cmd/station-data/main.go:267-287 | for any spans at all the pieces denote exactly the days of the span in none of the taken ones |
| FullPower.SubtractGapped | cmd/station-data/main.go:267-287 | when every span has a day the pieces are non-empty parts of the span, in order and apart |
| FullPower.CutGappedExactly | cmd/station-data/main.go:271-284 | for one cut, exactly when the order holds: the taken span has a day, or does not reach the piece; taken spans come from normal forms, which have only the first kind |
| FullPower.CollectFullPower | cmd/station-data/main.go:246-253 | the map holds for every sign the spans of the full-power stations with that sign, in order |
| FullPower.PreferFullPower | cmd/station-data/main.go:245-265 | updating the stations in place, one at a time, gives what computing each from the original list gives |
| FullPower.PreferMeaning | cmd/station-data/main.go:242-265 | a Class A station keeps a sign on a day exactly when it held it and no full-power station did; every other station is unchanged; normal forms stay normal |
| FullPower.PreferInPlainTerms | cmd/station-data/main.go:245-265 | the same by facility keys: a facility loses a day exactly when it is Class A and a facility that is not holds the sign that day |
| Holders.SplitOffSign | cmd/station-data/main.go:295-299 | the number of clashing pairs is the number within one sign plus the number among the others |
| Holders.GroupBySign | cmd/station-data/main.go:295-299 | the map holds every (station, span) under its sign, in order |
| Holders.ConcurrentHolders | cmd/station-data/main.go:289-312 | the number is that of the pairs of tenures of two stations with one sign that overlap, each counted once, whatever order the signs are visited in |
| Holders.CountIsPairs | cmd/station-data/main.go:289-312 | the count over the list of holders is the cardinality of that set of pairs |
| Holders.ZeroMeansOneHolder | cmd/station-data/main.go:289-312 | the count is zero exactly when every sign has at most one station on every day |
| Clip.CollectEnds | cmd/station-data/main.go:393-401 | every recorded end of every station's spans is collected, and nothing else |
| Clip.ClipReusedCallSigns | cmd/station-data/main.go:392-416 | the in-place update of every span equals clipping each against the original ends |
| Clip.ClipStartMax | cmd/station-data/main.go:402-415 | an open start moves to the latest end of another station's tenure of the sign that ended earlier, and any start moves only to such an end |
| Clip.ClipOrderless | cmd/station-data/main.go:392-416 | the result for a station does not depend on the order of the stations |
| Clip.ClipShrinks | cmd/station-data/main.go:402-415 | a clip keeps sign and end, only loses days, and never all of them |
| Clip.ClipExactly | cmd/station-data/main.go:402-415 | exactly which days a clip costs a history in normal form: those of a span with an open start that lie before an end of the sign, recorded elsewhere, that the span outlasts |
| Clip.ClipInPlainTerms | cmd/station-data/main.go:392-416 | a station loses a day exactly when it held it by a tenure open at the start that outlasts a tenure of the sign which another station ended after that day |
| Clip.ClipIdempotent | cmd/station-data/main.go:392-416 | clipping twice is clipping once |
| Clip.ClipSeparates | cmd/station-data/main.go:390-416 | a tenure with an open start no longer overlaps any other station's tenure of the sign that ended earlier |
| Clip.ClipNeverAddsClashes | cmd/station-data/main.go:290-416 | clipping never raises the count of concurrent holders |
| Clip.ClipNormal | cmd/station-data/main.go:392-416 | clipping keeps a normal form and adds no fact |
| Clip.Settle | cmd/station-data/main.go:127-131 | the order the stages run in: prefer full power, clip, drop stations left with nothing, count |
| Clip.SettledFacts | cmd/station-data/main.go:127-131 | after all stages every station left is in non-empty normal form, holds only what some original station of its id held, and no Class A station holds what a kept full-power station holds that day |
| Build.FacilitySpans | cmd/station-data/main.go:175 | the two stages in a row, day by day: with a history, the history rule decides every day from the merged start on (every day, when the first span has a start), the preceding rows the days before; without one the rows decide |
| Build.BuildFacilities | cmd/station-data/main.go:161-180 | every licensed or once active facility that can be located is a station under its id, in order, except where its records leave no tenure |
| Build.Matching | cmd/station-data/main.go:201-206 | exactly the facilities that share a tenure with the item, each once |
| Build.PlaceItem | cmd/station-data/main.go:198-221 | an item that matches exactly one facility is merged into that one and changes no other; one that matches none is appended if it has a tenure and a place; one that matches several changes nothing |
| Build.BuildStations | cmd/station-data/main.go:159-224 | the final list comes from the facilities by such steps, one for each item in order |
| Build.BuiltAttested | cmd/station-data/main.go:159-224 | every day of every station comes from its own facility's history rule or rows, or from the rows of an item that was given to that very station |
| Build.StationStays | cmd/station-data/main.go:197-221 | no station is lost or renamed on the way, and its call signs change only when an item is given to it |
| Build.ItemAppears | cmd/station-data/main.go:210-219 | a located item with a tenure that matches no facility is in the final list as it was made |
| Build.SettledDays | cmd/station-data/main.go:127-131 | a day of a built station is lost exactly to a full-power holder (for Class A) or to the clip, and a station that keeps a day is kept |
| Build.StationData | cmd/station-data/main.go:127-131 | end to end: the settled list is what the stages make of the built one; each station has a tenure, in normal form; its days are exactly those of a built station that survive in that sense, and no such day is missing; no Class A station holds what a full-power one holds; the reported number is zero exactly when no day has two stations with one sign |
| Lifecycle.LifecycleRequester.Request | cmd/loomarr/main.go:475-484 | the first request claims the generation and goes into the one slot, which is free then; any other is refused and changes nothing |
| Lifecycle.LifecycleRequester.Receive | cmd/loomarr/main.go:336-338 | receiving empties the slot and leaves the claim |
| LifecycleRuns.OnlyFirstRequest | cmd/loomarr/main.go:454-484 | over every interleaving of submissions and receives exactly the first submission is accepted, and only it is ever received, once |
| Lifecycle.Process.RestoreSQLite | cmd/loomarr/main.go:420-429 | the bootstrap goes back to the fallback and the cause is recorded, or nothing changes and the restore error is returned |
| Lifecycle.Process.MigrateThenPersist | cmd/loomarr/main.go:520-528 | the new URL is persisted only after a copy that verified |
| Lifecycle.Process.MigrateDatabase | cmd/loomarr/main.go:488-506 | a URL pinned by the environment is refused before either database is touched |
| Lifecycle.Process.PerformCutover | cmd/loomarr/main.go:375-442 | the live store closes first, and a failed close stops the cutover; success sets the fallback, failure the error; either way the loop restarts |
| Lifecycle.Process.Serve | cmd/loomarr/main.go:320-399 | of all requests offered only the first is accepted; the three ways to stop and the drain lead to restart, stop, error or cutover as coded |
| Lifecycle.Process.FailStart | cmd/loomarr/main.go:256-292 | a failure to build or listen restores SQLite when a cutover is pending, and is returned otherwise; the store is closed |
| Lifecycle.Process.RunOnce | cmd/loomarr/main.go:137-399 | one generation with all its exits is the transition that `EventsExactly`, `ServingLeaves`, `FailingLeaves` and `UnreadLeaves` describe by its inputs and the run lemmas reason about |
| LifecycleEvents.EventsExactly | cmd/loomarr/main.go:137-442 | everything a generation logs, by its inputs: when it opens its store, serves, rolls a pending cutover back, gives the store up, copies, and commits the target |
| LifecycleEvents.ServingLeaves | cmd/loomarr/main.go:316-399 | restart, error, bootstrap, fallback and recorded reason after a generation that served, by its inputs |
| LifecycleEvents.FailingLeaves | cmd/loomarr/main.go:165-292 | the same after one that failed to open, build or listen |
| LifecycleEvents.UnreadLeaves | cmd/loomarr/main.go:138-153 | a configuration that cannot be read or recorded stops the process and changes nothing |
| LifecycleEvents.TargetServes | cmd/loomarr/main.go:165-318 | with everything working, a Postgres database that opens is opened, served from and kept, and the process goes round only if asked |
| LifecycleEvents.CutoverCommits | cmd/loomarr/main.go:165-442 | a cutover over two generations: the target is written down, opened and served from, and stays the bootstrap |
| Lifecycle.Process.Run | cmd/loomarr/main.go:72-94 | the loop goes round while generations ask for it and stops at the first that does not |
| LifecycleRuns.ServedOutcomes | cmd/loomarr/main.go:316-399 | what a serving generation leaves: after a cutover the target as bootstrap and the SQLite database left as fallback; otherwise bootstrap unchanged, no fallback, and, if a transition was requested, a restart with the reason a migration failed on record or, after a plain restart, the record cleared |
| LifecycleRuns.FallbackMeansCutover | cmd/loomarr/main.go:83-93 | the fallback is set at the start of a generation exactly when the previous one ended in a verified cutover |
| LifecycleRuns.UnrequestedRestart | cmd/loomarr/main.go:165-173 | a restart nobody requested happens exactly when the first Postgres generation failed before serving and the restore was written |
| LifecycleRuns.RestartsExactly | cmd/loomarr/main.go:318-399 | the loop goes round exactly on a served request or such a rollback, and the process ends without an error exactly on a signal after a clean drain |
| LifecycleRuns.FallbackLastsOnce | cmd/loomarr/main.go:193-318 | one configured generation uses up a pending fallback without touching the bootstrap; when Postgres was not selected and no transition follows, the recorded error says so |
| LifecycleRuns.FailedTargetRollsBack | cmd/loomarr/main.go:165-292 | when the first Postgres generation fails at open, build or listen, the bootstrap is the old SQLite URL before the next one starts, or the process stops with the restore error |
| LifecycleRuns.CutoverThenFailure | cmd/loomarr/main.go:165-392 | across two generations the bootstrap comes back to the very URL the first one ran on |
| LifecycleRuns.RestartsNeedCutovers | cmd/loomarr/main.go:83-93 | over every run, restarts nobody requested never outnumber completed cutovers, a pending one counted as not used up |
| LifecycleRuns.InvGeneration | cmd/loomarr/main.go:137-399 | every generation keeps the invariant on log, fallback and bootstrap, whatever fails |
| LifecycleRuns.RunIsSafe | cmd/loomarr/main.go:72-94 | over every run, whatever fails: no store is opened over one not given up, every copy and every write of the bootstrap has what must come before it in the log, and the bootstrap is always what was last written |
| LifecycleRuns.CopiesFollowTheClose | cmd/loomarr/main.go:375-442 | over every run, the three events right before a copy are its own generation opening that SQLite source, serving, and closing it without error |
| LifecycleRuns.BootstrapMoves | cmd/loomarr/main.go:375-442 | over every run, the bootstrap moves to a target only right after open, serve, close and verified copy to that target, and otherwise only back to the source of a copy since which nothing has served |
| Bytes.BE32RoundTrip | cmd/image-bench/main.go:398-399 | four big-endian bytes read back as the number modulo 2^32 |
| Bytes.LE16RoundTrip | cmd/image-bench/main.go:435-436 | two little-endian bytes read back as the 16-bit number |
| Bytes.BigEndian | cmd/image-bench/main.go:398-399 | the first of four bytes counts 2^24, the last 1 |
| Bytes.LittleEndian | cmd/image-bench/main.go:435-436 | the first of two bytes counts 1, the second 256 |
| Zlib.StoredZlib | cmd/image-bench/main.go:421-441 | the loop writes the stored-block stream and never outgrows the preallocated capacity |
| Zlib.BlocksLength | cmd/image-bench/main.go:425-439 | five bytes of overhead for each started 65535 bytes |
| Zlib.BlockLayout | cmd/image-bench/main.go:427-438 | flag, length, complement and data stand where RFC 1951 puts them, the final flag only on the last block |
| Zlib.InflateBlocks | cmd/image-bench/main.go:427-439 | a stored-block inflater gets the bytes back and stops where the checksum starts |
| Zlib.StoredRoundTrip | cmd/image-bench/main.go:421-441 | unzipping the stream gives the input exactly when the input is not empty |
| Zlib.UnzippedLength | cmd/image-bench/main.go:427-439 | nothing that unzips to as many bytes is shorter than what this writer makes |
| Zlib.StreamFrame | cmd/image-bench/main.go:426-440 | the two header bytes, and the checksum's four at the end |
| Zlib.FirstBlock | cmd/image-bench/main.go:427-438 | the bytes of the first block in numbers, and that the stream goes on as that of the rest |
| Png.Writer.Write | cmd/image-bench/main.go:450-452 | an output with limited room takes what fits and reports the failure |
| Png.WriteChunk | cmd/image-bench/main.go:443-457 | length, kind, data and checksum are written in four writes, stopping at the first failure with just those bytes out |
| Png.FilterRows | cmd/image-bench/main.go:405-414 | every row is buffered behind a zero filter byte, taken at its stride |
| Png.EncodeStable | cmd/image-bench/main.go:393-419 | the writes, stopping at the first failure, put out as much of the encoded file as fits |
| Png.EncodedChunks | cmd/image-bench/main.go:393-419 | the bytes parse back as signature, IHDR, IDAT, IEND and nothing else |
| Png.RawRowsRead | cmd/image-bench/main.go:405-414 | unfiltering the buffered rows gives every pixel row back |
| Png.StreamSizeIs | cmd/image-bench/main.go:415-425 | the size of the compressed stream as a function of width and height |
| Png.PngRoundTrip | cmd/image-bench/main.go:393-457 | whatever the checksums are, decoding the file returns exactly the image's pixels if and only if the image is not empty and its stream fits the format's chunk length |
| Png.DecodedParts | cmd/image-bench/main.go:393-419 | any file that decodes to a picture has image data at least as long as this writer makes for it, in chunks within the limit |
| Png.TooTallIsLost | cmd/image-bench/main.go:393-457 | an image of one column and five hundred million rows that does not read back, under any checksums |
| Png.FileLayout | cmd/image-bench/main.go:393-457 | the file in literal bytes: signature, IHDR with width, height, depth and colour type, IDAT with the stream, empty IEND, each chunk with its length and the checksum of type and data |
| Png.PixelBytes | cmd/image-bench/main.go:405-414 | where every row of the image stands among the uncompressed bytes, behind a zero |
| Png.WideHeaderWraps | cmd/image-bench/main.go:398-399 | beyond those limits the truncation to 32 bits makes different widths indistinguishable |
| Ranks.RankInRange | cmd/image-bench/main.go:501-502 | the index is in range exactly for percentages up to 100, negative ones included |
| Ranks.ComputePercentile | cmd/image-bench/main.go:495-503 | sorting a clone and indexing it gives the percentile, zero for no values |
| Ranks.PercentileRank | cmd/image-bench/main.go:495-503 | the result is one of the values, with fewer than the rank below it and at least the rank up to it, the rank being the share rounded up and at least 1 |
| Ranks.RankIsUnique | cmd/image-bench/main.go:495-503 | only one value can satisfy that |
| Ranks.PercentileOrderless | cmd/image-bench/main.go:499-500 | the order of the input does not matter |
| Ranks.PercentileMonotone | cmd/image-bench/main.go:501-502 | a higher percentage never gives a lower value |
| Ranks.HundredIsMax | cmd/image-bench/main.go:477 | the hundredth percentile is the maximum |
| Ranks.NothingIsMin | cmd/image-bench/main.go:501-502 | at zero percent and below the result is the minimum |
| Ranks.FiguresOfSamples | cmd/image-bench/main.go:462-467 | each sample adds its wall time, its size and all its worker times to the figures |
| Ranks.SummarizeProfile | cmd/image-bench/main.go:459-511 | each figure is computed from its own samples; rate times duration is the count times 60000; P50 is at most P95 is at most the maximum; the peak is the largest sample; no samples give zeros |
| SlotStore.SidecarStore.Load | design/image-slot.js:172-174 | marks the load as begun, changes nothing else, and changes nothing the second time |
| SlotStore.SidecarStore.Settle | design/image-slot.js:176-195 | the three callbacks are the hydration that `HydrationMerges`, `HydrationKeepsFraming` and `HydrationWithout` describe |
| SlotStore.SidecarStore.Save | design/image-slot.js:222-230 | while a write is out a save only marks dirty; without a writer it does nothing |
| SlotStore.SidecarStore.CompleteWrite | design/image-slot.js:227-229 | a finished write re-fires once if dirty, with the slots of that moment |
| SlotStore.SidecarStore.SetSlot | design/image-slot.js:243-252 | an empty id is ignored; a value drops the tombstone, a clear leaves one before loading; the save runs now or waits for the load |
| SlotStore.SidecarStore.FlushNow | design/image-slot.js:216-221 | nothing is flushed before the store is loaded |
| SlotStore.SidecarStore.GetSlot | design/image-slot.js:237-241 | a bare string reads as an unframed image, a missing or empty entry as nothing |
| SlotStore.StepInv | design/image-slot.js:172-252 | every event keeps the store's invariant, and a change leaves a save pending, issued or missed |
| SlotStore.RunInv | design/image-slot.js:172-252 | so it holds after every sequence of events |
| SlotStore.OneWriteInFlight | design/image-slot.js:199-230 | over every interleaving at most one save is in flight, and none before hydration |
| SlotStore.ExactlyUpToDate | design/image-slot.js:199-252 | a run is up to date at every moment (idle, clean and having saved, the last save was the current slots) if and only if every save that found no writer while none was in flight left the slots as last sent |
| SlotStore.WriterMeansUpToDate | design/image-slot.js:199-252 | so with a host that always has a writer it always is |
| SlotStore.IdleMeansSaved | design/image-slot.js:199-252 | at one moment: if the last save did not miss its writer, an idle and clean store has sent its current slots, and once the load's queue has drained every change has been sent |
| SlotStore.MissedSaveIsLost | design/image-slot.js:222-230 | a run in which that fails because a save found no writer |
| SlotStore.BeforeHydration | design/image-slot.js:165-168 | before hydration the slots are the last local values and the tombstones the ids last cleared |
| SlotStore.HydrationMerges | design/image-slot.js:176-193 | after hydration an id has its last local value, inheriting a missing image from disk; is absent if last cleared; and otherwise has its disk value |
| SlotStore.HydrationKeepsFraming | design/image-slot.js:176-193 | an id the page spoke of last keeps its scale and offsets, and its image unless it has none and the sidecar has one |
| SlotStore.HydrationWithout | design/image-slot.js:174-195 | without a sidecar, or when reading it fails, the page's own words are what is held |
| SlotStore.AfterHydration | design/image-slot.js:243-252 | from then on the last word on an id stands, and silence keeps what hydration left |
| SlotStore.FlushSends | design/image-slot.js:205-221 | at every moment of every run an unload of a loaded store that finds a writer sends the current slots and changes nothing else, and nothing else sends one |
| Reframe.ClampTwice | design/image-slot.js:971-979 | clamping is idempotent and leaves the scale alone |
| Reframe.ClampIsNearest | design/image-slot.js:971-979 | the clamped centre is within half the overflow, and no such place is nearer |
| Reframe.FitsAtOne | design/image-slot.js:952-967 | at scale 1 the image just fills the frame, or just fits inside it |
| Reframe.SizeIsScale | design/image-slot.js:960-979 | the image's size is proportional to the scale and keeps its shape |
| Reframe.Slot.PointerMove | design/image-slot.js:649-668 | after a move the view is clamped, in cover mode the frame is covered, and a pan that needs no clamping has moved the image by as many pixels as the pointer; its resize branch computes what `ResizeFixesOppositeCorner` is about |
| Reframe.Slot.WheelZoom | design/image-slot.js:687-702 | the wheel handler, which does nothing when the scale does not change |
| Reframe.AfterSound | design/image-slot.js:624-702 | every gesture event leaves a clamped view with scale 1 to 5 and a usable drag |
| Reframe.ClampedCovers | design/image-slot.js:960-979 | in cover mode a clamped view covers the whole frame |
| Reframe.ClampCoversExactly | design/image-slot.js:960-979 | in either mode a clamped view covers the frame exactly when the image is at least as long as the frame along both axes |
| Reframe.CoveringStays | design/image-slot.js:971-979 | clamping changes nothing in a view that covers the frame already |
| Reframe.AlwaysCovers | design/image-slot.js:624-702 | over every sequence of pan, wheel and corner events, however the frame was drawn meanwhile, the image covers the frame and the scale stays in 1 to 5 |
| Reframe.PanFollowsPointer | design/image-slot.js:662-665 | before clamping, a pan moves the image by as many pixels as the pointer moved, at the same scale |
| Reframe.PanIsFromStart | design/image-slot.js:660-668 | a pan's offsets are those of its start plus the pointer's way, clamped, whatever moves came between |
| Reframe.UpEndsDrag | design/image-slot.js:670-677 | once the pointer is up its moves do nothing |
| Reframe.WheelFixesCursor | design/image-slot.js:685-699 | before clamping, the image point under the cursor stays under it |
| Reframe.WheelScales | design/image-slot.js:692-694 | the new scale is the old one times the factor, within 1 to 5 |
| Reframe.ResizeFixesOppositeCorner | design/image-slot.js:634-656 | before clamping, a corner drag leaves the opposite corner where it was |
| Reframe.ResizeStartsSmoothly | design/image-slot.js:642-654 | with the pointer on the corner it grabbed, the scale is unchanged |
| Reframe.ResizeFollowsPointer | design/image-slot.js:637-654 | wherever the pointer is, the dragged corner comes level with it along the diagonal, as far as scales 1 to 5 allow |
| Reframe.ContainNeedNotCover | design/image-slot.js:952-967 | so in contain mode it can fail: a tall image at scale 1 |
| PseudoCss.ScanUnquotedUrl | design/support.js:1498-1509 | the scan finds the end of the url token at a position, or -1 exactly when there is none; `url(` after a name character or before a quote is none |
| PseudoCss.LexText | design/support.js:1510-1541 | the tokens of a text put together are the text |
| PseudoCss.StripComments | design/support.js:1510-1541 | the loop with its quote flag and jumping index computes the stripped text |
| PseudoCss.StripText | design/support.js:1510-1541 | which is the tokens with each comment replaced by a blank |
| CssLaws.StripKeepsTokens | design/support.js:1498-1541 | the stripped text scans as the same tokens with blanks for comments: every string and unquoted url, closed or not, is left as it was, and no new one appears |
| CssLaws.StripIdempotent | design/support.js:1510-1541 | stripping twice is stripping once, on every string |
| Importantify.Importantify | design/support.js:1542-1566 | the loop with quote flag, depth and jumping index cuts the stripped text at exactly the semicolons outside strings, urls and parentheses |
| Importantify.ClosedPiece | design/support.js:1544-1566 | a declaration that a semicolon ends keeps its extent when its trailing space becomes the mark |
| Importantify.LastPieceStays | design/support.js:1544-1566 | so does the last, even one that ends inside a string, url or parenthesis |
| Importantify.ResultPieces | design/support.js:1544-1566 | cutting the joined declarations gives the declarations back |
| Importantify.ImportantifyDeclarations | design/support.js:1542-1566 | the result has no comment and its declarations are the input's non-blank ones, trimmed, in order, each important |
| Importantify.ImportantifyIdempotent | design/support.js:1542-1566 | marking twice is marking once, on every string |
| CssMeaning.StringStays | design/support.js:1510-1541 | a string in either kind of quotes comes through stripping whatever it holds |
| CssMeaning.CommentGoes | design/support.js:1526-1529 | a comment becomes one blank, up to its first end mark or the end of the text |
| CssMeaning.CharacterStays | design/support.js:1530-1537 | any other character but a `u` is copied alone |
| CssMeaning.UrlStays | design/support.js:1498-1509 | an unquoted url in any case comes through whatever its argument holds |
| CssMeaning.UrlAfterName | design/support.js:1499 | behind a letter, digit, underscore or hyphen `url(` is not special |
| CssMeaning.BreaksAtSemicolon | design/support.js:1547-1564 | without strings, comments and urls a declaration ends at the first semicolon outside parentheses |
| CssMeaning.TwoDeclarations | design/support.js:1542-1566 | two plain declarations with blanks around them come out trimmed, marked and joined by a semicolon |
| CssMeaning.AlreadyImportant | design/support.js:1565 | one that ends in `!` and "important", in any case and with blanks between, is not marked again |
| CssMeaning.StringIsOneDeclaration | design/support.js:1542-1566 | a declaration that is one string is neither stripped nor split |
| MakeDocs.MakeParseState.Parse | cmd/dev-docs/main.go:118-177 | reading a file, includes and all, does to section, targets and seen names what one flat pass over its inlined text does, fails as that pass fails, leaves the stack as it was, and terminates on every include graph |
| MakeDocs.MakeParseState.ParseLines | cmd/dev-docs/main.go:138-172 | the same for the lines of a file, stopping at the first error |
| MakeDocs.MakeParseState.ParseLine | cmd/dev-docs/main.go:141-171 | the same for one line: section, include, target or other, in that order of preference |
| MakeDocs.MakeParseState.ParseRefs | cmd/dev-docs/main.go:146-155 | the same for the names on an include line |
| MakeDocs.ParseMakefile | cmd/dev-docs/main.go:90-108 | the whole reader is one flat pass over the inlined Makefile, an empty result being an error; `TargetsExactly`, `FlatIsListed` and `IncludeIsText` say what it returns in terms of the files |
| MakeLaws.NoBadMeansClean | cmd/dev-docs/main.go:118-155 | inlining meets no error exactly when no include chain from the file meets a file twice, escapes the root, or reaches a missing, unreadable or non-literal one |
| MakeLaws.CyclesAreReal | cmd/dev-docs/main.go:127-129 | every cycle reported is a chain of includes from the root back into itself |
| MakeLaws.CyclesReported | cmd/dev-docs/main.go:127-129 | every cycle the root reaches makes the reader fail, and it blames a cycle only where there is one |
| MakeLaws.ChainHasCycle | cmd/dev-docs/main.go:127-155 | a chain of includes inside the root that comes back to a file being read is inlined with a cycle error, whatever else the files hold |
| MakeLaws.CycleIsTheError | cmd/dev-docs/main.go:118-155 | where the files within reach are sound and target names unique, the reader reports a cycle exactly when the root reaches one, and the one it names is real |
| MakeLaws.FirstErrorReported | cmd/dev-docs/main.go:118-175 | an include error is the one returned exactly when neither another include error nor a duplicate target comes before it in the inlined Makefile |
| MakeLaws.ScanMeaning | cmd/dev-docs/main.go:139-172 | the flat pass succeeds exactly on error-free text with unique new names, and appends every target in order under its section |
| MakeLaws.DocumentedMeaning | cmd/dev-docs/main.go:90-177 | the reader succeeds exactly when the include graph is clean, the names are unique and there is a target, and returns the inlined Makefile's targets in order, each under the last section line before it |
| MakeMeaning.TokensExactly | cmd/dev-docs/main.go:118-177 | every section, target and error met comes from a line at the end of a chain of includes the reader follows, and every such line gives its own |
| MakeMeaning.TargetsExactly | cmd/dev-docs/main.go:138-172 | when the reader succeeds, a target with its prerequisites and text is listed exactly when an include chain leads from the root to a file with its line |
| MakeMeaning.FlatIsListed | cmd/dev-docs/main.go:138-172 | a Makefile without includes is listed target by target in the order of its lines, each under the last section line before it |
| MakeMeaning.IncludeIsText | cmd/dev-docs/main.go:145-157 | a Makefile that is accepted means the same with an included file's lines in the place of its name: same targets, same order, same sections |
| MakeMeaning.DuplicateReported | cmd/dev-docs/main.go:162-164 | a duplicate is reported with its own file and that of the first target of the name, nothing having failed before |
| Thumbs.Distinguish | internal/api/channeltimeline.go:77-88 | the loop with its seen set keeps the first of each non-empty key |
| Thumbs.UniqueMembers | internal/api/channeltimeline.go:79-88 | every requested key with a name is asked for, and no other |
| Thumbs.UniqueDistinct | internal/api/channeltimeline.go:79-88 | and none twice |
| Thumbs.StepInv | internal/api/channeltimeline.go:93-112 | any next step of any worker or of the sender keeps the pool's invariant |
| Thumbs.StepProgress | internal/api/channeltimeline.go:93-112 | every step uses up work, so every schedule ends |
| Thumbs.NeverStuck | internal/api/channeltimeline.go:93-112 | until every worker has left some step is possible: no deadlock |
| Thumbs.AnyScheduleIsBounded | internal/api/channeltimeline.go:65-112 | under every schedule, at every moment: no job called twice, no slot written twice, at most min(8, n) calls out, at most 4n + 1 steps |
| Thumbs.FinishedIsComplete | internal/api/channeltimeline.go:93-112 | when the workers have left every job has been called once and its answer is in its slot |
| Thumbs.RunPool | internal/api/channeltimeline.go:93-112 | whatever a scheduler picks, the pool ends with every slot filled and every job called once |
| Thumbs.AskedOnce | internal/api/channeltimeline.go:77-112 | so each distinct key is asked exactly once |
| Thumbs.ResolveThumbs | internal/api/channeltimeline.go:69-118 | the map is the sequential loop's, each of its keys asked once; without a resolver it is empty and nothing is asked |
| Splice.ReplaceBlock | cmd/arch-docs/render.go:205-210 | on a text with one marked block exactly that block is replaced |
| Splice.SplicedFrame | cmd/arch-docs/render.go:204-233 | an accepted page is a frame around the block that does not depend on the block |
| Splice.FrameIsClear | cmd/arch-docs/render.go:204-233 | no marker lies in front of the block, nor straddles its start |
| Splice.LastWriterWins | cmd/arch-docs/render.go:201-233 | splicing a marked block and then any other is splicing the other |
| Splice.SpliceIdempotent | cmd/arch-docs/render.go:201-233 | regenerating a page changes nothing the second time |
| Splice.ProseSurvivesReplacing | cmd/arch-docs/render.go:208-210 | everything outside the markers survives |
| Splice.ProseSurvivesInserting | cmd/arch-docs/render.go:216-232 | on the first insert everything survives but the line breaks at the seam, and the block goes right before the first heading after the anchor, or at the end |
| Splice.HalfPairRefused | cmd/arch-docs/render.go:208-220 | a page is refused as malformed exactly when it has one marker without the other or the end marker first, and for want of its anchor exactly when it has no marker and no anchor |

## Left out

Call-sign tenures:

- Downloads, zip, CSV and SPARQL parsing, geography, and call-sign spelling: inputs of the build, not part of its logic; `norm` stands for the spelling rules.
- `buildStations`: where a facility or item lies is one flag each, `located`; a station is its id and its call signs. Stations are kept in the order they are built, since nothing proved depends on the sort by id; the rows no facility claims come grouped by item.
- History.HistoryFollowsRule: assumes distinct sequence numbers, because the source's sort is not stable and equal numbers leave its result open.
- History.SpansFromHistory: the reordering of the caller's slice is returned as a value, since a Dafny sequence is not shared; likewise in Merge.MergeWikidata.

Generations:

- HTTP, signal handling, LAN discovery, logging, the startup report, and the text of error messages (errors are kinds, so shortening them is not modelled).
- The 15-second drain and 30-minute migration limits: a timeout is one more way for a step to fail.
- The packages `config`, `store`, `records` and `app` are not part of this model: their results are inputs of a generation, and replacing the bootstrap file is taken to be atomic. A configuration that cannot be read or recorded is one input, `configOk`.
- LifecycleRuns.RunIsSafe: runs over requests the handlers can make, so that a generation without a store sees no migration request: `buildDatabase` (internal/app/buildoperations.go:43-46) gives such a generation no database service.
- Lifecycle.Process.Run: the loop is modelled over a finite script of generations, of any length; that it may go on for ever is not stated.

Encoder:

- The inside of Adler-32, CRC-32 and JPEG, corpus generation, and flag parsing.
- Ranks.ComputePercentile: values are unbounded integers; the source's index arithmetic is on machine integers and would overflow only for lists no memory holds. A percentage over 100 is out of range in the source and is excluded.
- Ranks.SummarizeProfile: rates are `real` where the source uses 64-bit floats.

Image slots:

- DOM, listeners, masking, image decoding, popovers and credits.
- SlotStore.SidecarStore.Settle: slots are values, so that a merged entry is the same object as the caller's is not modelled; neither is a sidecar whose JSON is not an object, nor a writer that throws at once.
- Reframe.Slot.WheelZoom: the power of the wheel delta is a positive parameter, and arithmetic is over `real`.
- Reframe.Slot.PointerMove: the diagonal is a positive parameter, `ResizeStartsSmoothly` alone needing it to be the hypotenuse. The image is loaded and the element keeps its size while it is being reframed; the rectangle a drag starts from may be any.

CSS:

- The React runtime, templates and streaming. Characters are single units; white space and letters are those the source's patterns match.

Makefile reader:

- The three line patterns are a classification of lines and paths are given normalised, with the set outside the root; the "in CI" column and the rendering are left out.

Artwork batch:

- Thumbs.RunPool: the result slots are a sequence in the pool's state where the source has a shared slice, and the resolver answers as a function of the key; cancellation through the context is left out.

Marker splice:

- Text is a sequence of characters where the source slices bytes; the rest of the page rendering is left out.
