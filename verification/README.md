# s3cache: the key index and what is built on it

A Dafny model of s3cache's in-memory key index and of the machinery around it, with proofs
of what that machinery promises over whole runs. `dafny verify dfyconfig.toml` checks all of
it.

The index is one lock-protected state machine. Each bucket holds live rows, delete
tombstones, uncertainty fences with tokens, a rebuild generation with the keys touched since
it began, and statistics; beside them stand native feed cuts and an optional donor capture
with its journal. `Index.dfy` and `Install.dfy` define every operation as a function of the
whole state and `Machine` strings them into runs. `KeyIndex.dfy` is the same index as the
program keeps it, a class updated in place, each method proved to leave exactly the state
its function names; so every theorem about runs is about the class. The class holds each
bucket as a value; `RowTables.dfy` is the two row tables inside a bucket updated in place,
proved against the functions those values are built with.

| part | files |
|---|---|
| vocabulary, orders, sums | `Base`, `Ordered`, `Sums` |
| row tables and the incremental sweep | `Rows`, `RowTables` |
| buckets, the index, installs, runs | `Buckets`, `Index`, `Install`, `KeyIndex`, `Carrying` |
| what every operation keeps | `Soundness`, `Reachable`, `Conservation`, `ConservedRuns` |
| one key's history; convergence, overlay, fences | `KeyHistory`, `Convergence`, `Overlay`, `Fences` |
| capture, journal, follower | `CaptureSim`, `CaptureSize`, `Donor`, `Bootstrap` |
| install safety and its corner | `InstallSafety`, `InstallRuns`, `InstallCorner` |
| effect and image codecs | `Wire`, `Delta`, `Streams`, `Image`, `ImageCodec`, `ImageRoundTrip`, `ImageReader`, `ImageWriter`, `ImageSizes` |
| LIST pages, continuation tokens | `Listing`, `ListPages`, `Tokens`, `TokenWalk` |
| origin scans | `Scan`, `ScanRows`, `ScanLanes`, `ScanRebuild` |
| cached bodies: fill fences and trust | `FillFence`, `Trust` |
| pending operations, legacy decoder | `Pending`, `Legacy`, `LegacyReader` |

## How the model reads the source

- Text is the UTF-8 bytes of a Rust string, ordered as bytes. A time is nanoseconds from the
  epoch, within signed 64-bit seconds. Generations wrap at 2^64 and statistics saturate, as
  in the source; fence tokens are unbounded, because the source panics before one repeats.
- The sizes of the Rust types a decode budget charges are constants of unknown value, so the
  size results hold for any layout.
- The donor journal is a sequence of records and a flag that falls for good when an append
  is refused; whether the journal admits a record, whether native cuts align, and whether a
  caller's proof still stands are choices of the environment, different at every step.
- A bucket map has no order of its own. Where the source iterates one, the model takes name
  order; only saturated totals could tell the difference.
- The fill fence and trust protocols and the scan of a bucket's ranges are transition systems
  with one step per await point. An origin that lists honestly answers each range from one
  snapshot; what else the origin may say is the environment's to choose.

## Where a promise needs a condition

- Of a key with a live tombstone below its live row, an install can lose the row: the
  candidate covers it with the same version under an earlier stamp, and the live delete,
  later than that stamp, is carried and takes the covering row along. `RowSurvives` says a
  live row survives if and only if the key is not in that corner; `CoveredRowLost` reaches it.
- An operation that opens a bucket withdraws an open capture if and only if it is not a
  completion (`NewBucketWithdraws`); a stale completion opens an empty one
  (`StaleFinishOpensBucket`), and the simulation holds across it.
- Fence tokens are never reused while a bucket lives; removing it starts them over
  (`RemovalReusesTokens`).
- All orders of a key's puts and deletes agree if and only if no two puts that disagree at
  one time both stand at the end (`ConvergesExactly`, `LastOfATieStands`).
- A measured index has an image if and only if it holds no time before the epoch
  (`MeasuredEncodesSinceEpoch`, `AntedatedRefused`).
- A LIST token whose payload passes 16 KiB is refused by the node that minted it
  (`TokenRoundTrip`), so a client's walk by tokens completes if and only if no page's does
  (`TokensWalkListing`).
- The legacy decoder reads back a value if and only if each of its sequences has no more
  elements than bytes follow; elements of no bytes never do (`EmptyElementsRefused`).

## Model

| member | source | states |
|---|---|---|
| `RowTables.KeyTable.Insert` | src/index/rows.rs:52-60 | the table becomes the inserted one, the replaced row comes back, and a tally that was the rows' modular sum still is |
| `RowTables.KeyTable.Remove` | src/index/rows.rs:62-67 | removal by key, the row counted out of the tally exactly |
| `RowTables.KeyTable.Update` | src/index/rows.rs:69-81 | a row changed in place is counted out before and in after the change; no row, no change |
| `RowTables.GoneTable.Insert` | src/index/rows.rs:144-161 | insertion keeps both floors lower bounds, whether or not the key lies behind the sweep cursor, and the tally exact |
| `RowTables.GoneTable.Raise` | src/index/rows.rs:163-167 | a tombstone only moves later |
| `RowTables.GoneTable.Remove` | src/index/rows.rs:169-173 | removal keeps the floors and the tally |
| `RowTables.GoneTable.SweepExpired` | src/index/rows.rs:178-219 | the loop equals the sweep function, forgets at most 16 rows, each older than the cutoff, and changes no other |
| `Rows.FloorsAfterSweep` | src/index/rows.rs:107-219 | after any sweep the floor still bounds every held deletion time and the lap floor every one at or behind the cursor |
| `Rows.SweepBound` | src/index/rows.rs:178-219 | from any state the floors describe, 2*(n/16+1) sweeps of n tombstones under one cutoff leave nothing that had expired |
| `Rows.KeyInsertTallied` | src/index/fleet.rs:643-675 | the wrapping tally stays the modular sum of the rows' tallies through insertion, and in-place update equals re-insertion |
| `Rows.SweepTallied` | src/index/fleet.rs:643-675 | the tombstone tally stays the modular sum through a sweep |
| `Soundness.PutSound` | src/index.rs:491-528 | a put, accepted or not, keeps rows strictly later than their tombstones, tables tallied and floored, and fences distinct and allocated |
| `Soundness.DelSound` | src/index.rs:818-870 | a delete keeps the same, sweep included, even when it lost to a newer put and only raised the tombstone |
| `Soundness.ResolveSound` | src/index.rs:611-648 | so does an authoritative resolution |
| `Soundness.DecodePrivate` | src/index/fleet.rs:863-953 | a decoded image is private: synced, generation zero, no fences, no rebuild, and no tombstone reaching a row |
| `Reachable.RunSound` | src/index.rs:464-880 | every run of all sixteen kinds of operation, decode and install included, keeps every bucket sound |
| `Reachable.NoContradiction` | src/index/fleet/snapshot.rs:175-181 | in every reachable index a key with both has the tombstone strictly older, so the contradiction refusals of measuring and encoding are unreachable |
| `Conservation.InsertRowExact` | src/index.rs:345-353 | replacing a row keeps bucket and whole-index statistics exact if and only if the new totals fit 64 bits |
| `Conservation.DiscardStepExact` | src/index.rs:681-694 | discarding every bucket, one after another, leaves exact totals |
| `ConservedRuns.DecodeExact` | src/index/fleet.rs:863-953 | decoding leaves statistics exactly those of the decoded rows |
| `ConservedRuns.InstallStepExact` | src/index/fleet/install.rs:370-409 | an install with its carried deletes and rows leaves exact totals |
| `ConservedRuns.RunExact` | src/index.rs:224-245 | in every run whose totals fit 64 bits, each bucket's statistics are its row count and known non-negative bytes, and the index's are their sums |
| `KeyHistory.StepFollows` | src/index.rs:464-880 | until its bucket turns, every operation moves every key's row, tombstone, fence and rebuild mark exactly as that key's own events say, whatever else it does |
| `KeyHistory.PageViews` | src/index.rs:1123-1156 | a LIST page acts on a key only through that key's rows in page order |
| `KeyHistory.PrunedViews` | src/index.rs:821-828 | a sweep only forgets tombstones |
| `Convergence.ClosedForm` | src/index.rs:464-535 | outside a rebuild and with no sweep, the tombstone is the latest delete and the row the latest put where that is strictly later |
| `Convergence.Converges` | src/index.rs:793-880 | any two orders of the same puts and deletes, from any sound index, leave every key with the same row and tombstone, unless two puts that disagree at one time both stand |
| `Convergence.ConvergesExactly` | src/index.rs:793-880 | all orders agree on a key if and only if no two puts of it at one time carry different entries with no later put, no later held row and no delete at or after them; the row held before never matters |
| `Convergence.OwnIsAlwaysPlain` | src/index.rs:464-535 | what that asks of the operations holds of any puts and deletes that carry no native event and sweep nothing |
| `Convergence.LastOfATieStands` | src/index.rs:501-506 | the tie itself: of two puts at one time the one applied last stands, in either order |
| `Overlay.FinishedRebuild` | src/index.rs:1161-1171 | when a rebuild finishes, each key mutated or resolved since it began holds the fold of exactly those from empty, and any other the last-writer-wins merge of its observations and of its LIST rows from before its first fence, no tombstone, and its last fence still open |
| `Overlay.TouchedIsAuthority` | src/index.rs:491-528 | a key is touched exactly when a definitive put, delete or owned resolution reached it, and pages and observations before or after leave no trace |
| `Overlay.UnruledIsMerge` | src/index.rs:1139-1151 | from a resync, a key no mutation or resolution reached is the merge of what its fences let through, with no tombstone and its last fence open |
| `Overlay.UntouchedIsMerge` | src/index.rs:1139-1151 | never fenced either, it is the merge of everything listed and observed |
| `Overlay.MergeIsLatest` | src/index.rs:1139-1151 | the merged row is as late as every listed or observed one and is one of them unless completed |
| `Overlay.GenerationCounts` | src/index.rs:659-694 | a bucket's generation counts its resyncs, discards and installs modulo 2^64 |
| `Overlay.FormerGenerationStale` | src/index.rs:1131-1134 | once a bucket has moved on, no page or completion of its former generation is accepted again, short of 2^64 operations |
| `Overlay.StaleChangesNothing` | src/index.rs:1131-1168 | a stale page or completion leaves the whole bucket, `synced` included, as it was |
| `Fences.FenceSteps` | src/index.rs:573-675 | each operation's whole effect on a key's fence: opened at the next token, closed by its own resolution or an accepted definitive put or delete, otherwise kept; the epoch never falls |
| `Fences.TokenNeverReturns` | src/index.rs:573-583 | a token once let go never owns its key again, across resync, discard and install |
| `Fences.LateResolution` | src/index.rs:611-626 | a resolution with a closed or superseded token changes nothing, however late |
| `Fences.FenceLetGo` | src/index.rs:649-652 | a fence missing at the end of a run was closed or superseded by one of its operations, never by pages, observations, completion, sync completion, discard or install |
| `Fences.TokensIncrease` | src/index.rs:573-583 | the tokens a bucket hands out strictly increase over a whole run, whatever the keys |
| `Fences.RemovalReusesTokens` | src/index.rs:284-293 | the corner: removing a bucket restarts its tokens, so a resolution from before the removal owns the next fence, closes it and sets the key's row |
| `Fences.InstallTurns` | src/index/fleet/install.rs:455-473 | an install moves every bucket to its next generation with its fences and epoch as they were, or changes nothing |
| `KeyIndex.KeyIndex.constructor` | src/index.rs:268-272 | an empty index |
| `KeyIndex.KeyIndex.ApplyPut` | src/index.rs:464-535 | the branches in source order leave exactly the put's new index, and report whether it applied |
| `KeyIndex.KeyIndex.ApplyDel` | src/index.rs:793-880 | likewise for a delete: sweep only without a capture, tombstone first, then the losing and winning branches |
| `KeyIndex.KeyIndex.CompleteEntry` | src/index.rs:887-953 | fills only missing fields from an answer about the same version, and reports which of the four outcomes |
| `KeyIndex.KeyIndex.FenceUncertainKey` | src/index.rs:573-583 | the next token, and the capture withdrawn |
| `KeyIndex.KeyIndex.FenceUncertainKeyNative` | src/index.rs:547-557 | nothing for a duplicate event, otherwise the fence and the noted cut |
| `KeyIndex.KeyIndex.FenceOwnUncertainKey` | src/index.rs:561-571 | this node's own write is fenced whatever its cut |
| `KeyIndex.KeyIndex.ResolveUncertainKey` | src/index.rs:611-654 | applies an authoritative answer only under its exact token |
| `KeyIndex.KeyIndex.BeginBucketResync` | src/index.rs:659-676 | empties the bucket into its next generation, fences and epoch kept |
| `KeyIndex.KeyIndex.RemoveWhole` | src/index.rs:284-293 | removes a bucket and its contribution to the totals |
| `KeyIndex.KeyIndex.SyncListing` | src/index.rs:1123-1156 | the page loop equals the page fold, or refuses another generation's page |
| `KeyIndex.KeyIndex.FinishBucketSync` | src/index.rs:1161-1171 | publishes completion only for the rebuild's own generation |
| `KeyIndex.KeyIndex.DiscardAll` | src/index.rs:681-694 | the loop empties every bucket into its next generation |
| `KeyIndex.KeyIndex.NoteNativeCut` | src/index/fleet.rs:188-226 | only a known duplicate is refused; any other cut is noted or withdraws the capture |
| `KeyIndex.KeyIndex.RegisterNativeWriter` | src/index/fleet.rs:231-250 | declares a writer once |
| `KeyIndex.KeyIndex.NoteNativeSeal` | src/index/fleet.rs:314-325 | a seal advances the cut and is journaled as a no-op |
| `KeyIndex.KeyIndex.RenewNativeWriter` | src/index/fleet.rs:260-276 | a writer renews only forward, and keeps the capture only from its seal |
| `KeyIndex.KeyIndex.RemediateGap` | src/index/fleet.rs:285-297 | a gap moves the cut past what was missed and discards every bucket |
| `KeyIndex.KeyIndex.BeginFleetCapture` | src/index/fleet/capture.rs:174-268 | sizes from tallies, snapshots the universe, attaches a fresh journal, or attaches nothing |
| `KeyIndex.KeyIndex.Journal` | src/index/fleet.rs:95-149 | one record under its native or next local identity, or the capture withdrawn |
| `KeyIndex.KeyIndex.InstallFleetCandidate` | src/index/fleet/install.rs:435-481 | check, adopt, carry and swap leave exactly the install's new index, and a refusal leaves the old one |
| `CaptureSim.RunSimulates` | src/index/fleet.rs:95-158 | in every run, while a capture is valid, replaying its journal on any stage mirroring the image at C gives exactly the live rows, without Content-Type and metadata, and tombstones of every bucket |
| `CaptureSim.DisruptionWithdraws` | src/index/fleet.rs:176-182 | fences, resyncs, removals, LIST pages, gaps and first sights of a bucket always withdraw the capture |
| `CaptureSim.NewBucketWithdraws` | src/index/fleet.rs:176-182 | of all operations that open a bucket under an open capture, exactly a completion leaves the capture valid |
| `CaptureSim.StaleFinishOpensBucket` | src/index.rs:1161-1166 | that completion: stale, it leaves an empty bucket and the capture as it was |
| `Donor.PutRecords` | src/index.rs:473-534 | a put that is no duplicate appends exactly one record of its event while the capture stays valid, applied or not |
| `Donor.DelRecords` | src/index.rs:801-878 | so does a delete |
| `Donor.SealRecords` | src/index/fleet.rs:314-325 | so does a seal |
| `Donor.RenewRecords` | src/index/fleet.rs:260-276 | and a renewal |
| `CaptureSize.MeasuredIsSized` | src/index/fleet/capture.rs:91-106 | in every run, whatever happens between C and the measurement, a snapshot the measurement accepts has exactly the size taken at C from the tallies, so the refusal of a changed size is unreachable |
| `Donor.RunCovered` | src/index/fleet.rs:188-297 | in every run the journal follows the cuts at C without a gap, writer by writer, and ends exactly at the live cuts |
| `Donor.FollowerRebuildsLive` | src/index/fleet.rs:863-953 | end to end: the image decodes under exactly its measured size, every journal has a budget that admits it, and any admitted replay ends in the donor's live index |
| `Donor.StageAllApplies` | src/index/fleet/stage.rs:117-182 | the guarded stage holds after a batch exactly what the plain replay holds |
| `Bootstrap.FollowerCopiesDonor` | src/index/fleet/stage.rs:88-182 | peer bootstrap end to end, for every donor run and every sound follower with limits of its own: after installing the image and the journaled effects each key holds the install's merge of the follower's own state with the donor's live row, without Content-Type and metadata, and tombstone; a key the follower had nothing of holds exactly the donor's |
| `InstallSafety.RowSurvives` | src/index/fleet/install.rs:222-249 | after a checked install a live row survives at its version or under a strictly later second if and only if the key is outside the one corner named by the guard |
| `InstallSafety.TombstoneSurvives` | src/index/fleet/install.rs:254-271 | no live tombstone is lost to an older row |
| `InstallSafety.CandidateSurvives` | src/index/fleet/install.rs:222-271 | the candidate's tombstones only rise and its row gives way only to a live effect of a strictly later second |
| `InstallSafety.InstallIs` | src/index/fleet/install.rs:435-481 | a successful install holds exactly the universe, every bucket sound, at the next generation, each key at its merged row and tombstone, with cuts kept and the capture gone |
| `InstallRuns.InstallIsSafe` | src/index/fleet/install.rs:435-481 | in every run, an install of any bytes either changes nothing or leaves exactly the universe, every bucket complete in its next generation with its fences and epoch, and every key's live and candidate effects kept but for later ones, save the one corner |
| `InstallCorner.CoveredRowLost` | src/index/fleet/install.rs:222-271 | the corner reached by a delete, a put and an install of the encoded image of a one-row donor: every check passes, and the carried delete takes the row that covered the live one |
| `Carrying.CheckBucket` | src/index/fleet/install.rs:341-362 | rows then tombstones of a bucket, each covered, carried, or refused with a clause that is the verdict on the key it names |
| `Carrying.CheckCandidate` | src/index/fleet/install.rs:276-367 | succeeds exactly when the coverage conditions hold, with the carried effects in order, and any refusal names a reason that holds of the two indexes |
| `Carrying.ApplyCarry` | src/index/fleet/install.rs:370-409 | deletes first, then rows, as two walks of what was carried |
| `Carrying.CarriedIs` | src/index/fleet/install.rs:370-409 | the two walks leave what the two passes over the live index do |
| `Wire.ReadEntryRoundTrip` | src/index/fleet.rs:731-858 | a written row reads back as its skeleton and charges exactly its measured charge, entity tag included |
| `Delta.DeltaRoundTrip` | src/index/fleet/delta.rs:84-161 | an encoded effect decodes to its skeleton under exactly its charge and no less |
| `Delta.DeltaPrefixFree` | src/index/fleet/delta.rs:118-161 | no effect's bytes extend another's |
| `Delta.LimitsAgree` | src/index/fleet/delta.rs:118-161 | two nodes that both decode an effect, each under its own event, name and budget limits, decode the same one |
| `Streams.Writer.Put` | src/index/fleet.rs:409-420 | writes within the limit or refuses |
| `Streams.Writer.Entry` | src/index/fleet.rs:731-754 | writes exactly a row's layout, or refuses what it cannot express |
| `Streams.Reader.Take` | src/index/fleet.rs:454-462 | returns the next bytes and stands after them |
| `Streams.Reader.Entry` | src/index/fleet.rs:819-858 | returns exactly what the parse function does, error for error, and charges the budget the same |
| `Streams.DecodeBudget.Take` | src/index/fleet.rs:688-694 | charges within the limit or refuses |
| `Streams.EncodeDelta` | src/index/fleet/delta.rs:56-82 | the bytes of an effect, exactly when it fits |
| `Streams.DecodeDelta` | src/index/fleet/delta.rs:118-161 | equals the decoding function on every input |
| `Image.SizeAgreement` | src/index/fleet/snapshot.rs:53-91 | when the row-by-row measurement accepts, the sizing from tallies accepts with the same size |
| `ImageSizes.TalliedSize` | src/index/fleet/snapshot.rs:53-91 | the loop over buckets succeeds exactly when the index is sizable, with that size |
| `ImageSizes.MeasureImage` | src/index/fleet/snapshot.rs:134-194 | the loop over rows succeeds exactly when the index is measurable, with that size |
| `ImageWriter.Encode` | src/index/fleet.rs:758-817 | succeeds exactly when the image is encodable at the given size, and then writes exactly its layout; caps or a size out of bounds refuse by capacity and wrong counts as incomplete |
| `ImageWriter.MeasuredEncodes` | src/index/fleet.rs:758-817 | what the measurement accepts with times since the epoch, the encoder accepts at the measured size |
| `ImageWriter.MeasuredEncodesSinceEpoch` | src/index/fleet.rs:697-703 | a measured index encodes at its measured size if and only if no row or tombstone lies before the epoch |
| `ImageWriter.AntedatedRefused` | src/index/fleet.rs:697-703 | moving any row without a tombstone of any measurable index before the epoch changes no measurement and leaves no size at which it encodes |
| `ImageReader.Decode` | src/index/fleet.rs:863-953 | the nested loops return exactly what the parse functions do on every input, error for error |
| `ImageRoundTrip.ImageRoundTrips` | src/index/fleet.rs:863-953 | a measured index encodes into the bytes measured, decodes to its skeletal mirror under exactly the measured caps, and is refused with any less charge |
| `ImageRoundTrip.ImageIsExact` | src/index/fleet.rs:944-946 | no strict prefix and no extension of a measured image decodes |
| `ImageCodec.ImagePrefixFree` | src/index/fleet.rs:944-946 | no image's bytes extend another's, under any byte cap |
| `Listing.GroupIsBlock` | src/index.rs:1009-1013 | the keys of a common prefix are exactly those that start with it |
| `Listing.KeysAre` | src/index.rs:1027-1041 | the rolled-up keys are the undelimited ones, ascending |
| `Listing.GroupsAre` | src/index.rs:1009-1026 | the common prefixes are those some key rolls up into |
| `Listing.GroupsRise` | src/index.rs:1009-1026 | each once and in order |
| `Listing.PageSplits` | src/index.rs:1000-1042 | what a page leaves rolls up into exactly the items it did not give |
| `ListPages.ListObjects` | src/index.rs:964-1068 | the loop returns exactly the specified page, or nothing when it would emit a row of unknown size |
| `ListPages.PageIsFull` | src/index.rs:1008-1032 | a truncated page holds exactly max items, and a page is truncated exactly when items remain |
| `ListPages.WalkIsRollUp` | src/index.rs:964-1068 | following the cursors gives the unpaged roll-up, each key and common prefix once and in order, every page but the last full |
| `ListPages.RangeIsBlock` | src/index.rs:986-1006 | the walk begins where the matching keys do and meets them all before any other |
| `Tokens.Base64RoundTrip` | src/list_token.rs:123 | base64url decodes what it encodes |
| `Tokens.Base64Canonical` | src/list_token.rs:80-82 | and nothing else decodes to it |
| `Tokens.TokenRoundTrip` | src/list_token.rs:110-124 | a minted token resumes at its cursor on the request it was minted for exactly when its payload is within 16 KiB, and any other request is refused |
| `Tokens.LegacyTokenRoundTrip` | src/list_token.rs:64-107 | so does one minted in the first layout |
| `TokenWalk.TokensWalkListing` | src/cache/service.rs:78-100 | a client that passes each page's token back receives exactly the pages of the walk by cursors if and only if every page's token payload is within 16 KiB; otherwise it is refused after some of them, and it is never given any other page |
| `Scan.BoundariesAscend` | src/index/scan.rs:71-76 | boundaries chosen from sorted distinct prefixes strictly increase, for any number of workers |
| `Scan.Ranges` | src/index/scan.rs:57-69 | the loop returns the ranges between the boundaries |
| `Scan.RangesPartition` | src/index/scan.rs:55-69 | every key lies in exactly one range |
| `ScanLanes.TakeRows` | src/index/scan.rs:187-217 | the longest head of a response inside the range's end, refused when out of order |
| `ScanLanes.LaneStepKeeps` | src/index/scan.rs:172-253 | whatever a range's scan is told next, until its end it has published all it heard, and at its end exactly its range of any snapshot the responses walk |
| `ScanLanes.RangeScan.Hear` | src/index/scan.rs:172-253 | one turn of the paging loop moves the scan as its step function says and publishes that page, whatever else has happened to the index since the last turn |
| `ScanRows.RangesExhaust` | src/index/scan.rs:55-69 | the ranges' rows one after another are the whole snapshot |
| `ScanLanes.PlayKeeps` | src/index/scan.rs:261-288 | for any interleaving of the ranges' scans, other operations and completion, the index is the run of what was done, every scan keeps to its range, the generation's pages are the scans' own, and completion was published only with every scan done |
| `ScanLanes.ScanIsExhaustive` | src/index/scan.rs:261-288 | once every scan has ended on an honest origin, or completion was published, the generation's pages hold every origin row exactly once |
| `ScanRebuild.ScannedRebuild` | src/index.rs:1161-1171 | from resync to accepted completion, with every range scanned side by side and any other operations between, each key nothing else touched holds exactly its row in the origin's snapshot, or none |
| `FillFence.RunKeeps` | src/tier.rs:644-670 | the protocol's invariant over every interleaving of fills, invalidations and one write at a time |
| `FillFence.NoLateCommit` | src/tier.rs:551-598 | once an invalidation's fence has returned, no fill or observation registered when it looked ever lands |
| `FillFence.MissedBeganLater` | src/tier.rs:645-651 | a fill in flight that an invalidation did not see was registered after it looked, and whatever it may still land the origin has given since then |
| `FillFence.CacheIsCurrent` | src/cache/mutation.rs:117-150 | whenever no write of the key is in flight, the cached body is absent or exactly the origin's current version |
| `FillFence.ClearingIsNeeded` | src/cache/mutation.rs:137-139 | with a write that settles without clearing the key, from any state with no write in flight a fill and a write reach another whose cached body is the replaced one |
| `Trust.ServedWasProved` | src/cache/proxy.rs:1329-1377 | whatever a read answers from the tiers was proved under the generation current when it began and when its gate passed |
| `Trust.DistrustRefuses` | src/cache/proxy.rs:713-719 | a read begun before a remediation answers nothing at any later gate, whatever happens between |
| `Trust.UnprovedIsJudged` | src/cache/proxy.rs:1338-1375 | a copy with no proof of the present generation is served only after the index matched it |
| `Trust.ProofsAreOld` | src/tier.rs:919-921 | no proof made before a remediation counts after it |
| `Pending.PendingSet.ApplyAt` | src/sync/control/pending.rs:25-82 | accepts exactly the records the source accepts and keeps the projection that of the accepted history; a rejected one changes nothing |
| `Pending.PendingSet.OperationsFor` | src/sync/control/pending.rs:92-94 | exactly the operations the accepted history intended on the key and never resolved, and nothing when there are none |
| `Pending.PendingSet.IsEmpty` | src/sync/control/pending.rs:98-100 | true exactly when every intent of the accepted history has its outcome |
| `Pending.ProjectionIs` | src/sync/control/pending.rs:25-82 | after any accepted history the projection is exactly its open intents, the by-key map its inverse with no empty sets, no operation reused and none answered twice |
| `Pending.EmptyWhenResolved` | src/sync/control/pending.rs:97-100 | the projection is empty exactly when every intent has its outcome |
| `Legacy.LegacyRoundTrip` | src/codec/legacy.rs:52-130 | the layout of any value of any schema decodes back to it exactly when its sequences have room, and then one more byte or any fewer is refused |
| `Legacy.SolidRoundTrip` | src/codec/legacy.rs:90-97 | every schema whose sequence elements occupy at least a byte has room |
| `Legacy.EmptyElementsRefused` | src/codec/legacy.rs:90-97 | elements of no bytes never have room: even one is taken for truncation |
| `LegacyReaders.Reader.Deserialize` | src/codec/legacy.rs:140-323 | the advancing reader returns what the decoding functions do |
| `LegacyReaders.Reader.Elements` | src/codec/legacy.rs:277-297 | the counted run of elements likewise |
| `LegacyReaders.ReadSlice` | src/codec/legacy.rs:52-60 | exactly one value, trailing bytes an error |

## Left out

- Groupnet's internals: leases, gossip, membership, cut alignment, publication permits and journal storage appear only as flags and a sequence of records.
- Chunked image transfer and its hash commitment in src/index/fleet/stage.rs: the stage here begins from the image's bytes.
- Which writer an install refusal over unaligned cuts blames, and which of several reasons is named first: the source follows hash-map order there.
- KeyIndex.KeyIndex.BeginFleetCapture: admission, reservations, clocks and the limits on cuts of src/index/fleet/capture.rs are one flag, because they are Groupnet's.
- Overlapping writes of one key: the fill fence takes writes of a key one at a time, as its promise does.
- Tier internals: hot and warm are one tier whose deletes succeed; promotion appears in `Trust` as a copy with stamp zero.
- HEAD answers, body comparison against entries, range slicing and response headers: each is a short computation of its own.
- Prefix discovery in src/index/scan.rs: it only proposes boundaries, and any sorted distinct ones will do.
- The HTTP layer, metrics, configuration, copy forwarding and multipart uploads.
- blake3 is a parameter of the token functions; allocator capacity checks are not modelled.
- Reads that race a relaxed atomic: each load and store is one step.
