# Verification models of MediaRefinery

These Dafny modules model the parts of MediaRefinery in which a mistake would lose or misplace data, and prove
what those parts promise for every input and every run. `dafny verify dfyconfig.toml` checks the whole project.

| modules | what they model |
|---|---|
| `EventModel`, `EventInvariant`, `EventLaws`, `EventReset`, `EventRuns`, `EventWitness`, `EventStore` | the event-group store: ingest, rename, merge, split, remove and reset on two tables that no foreign key connects |
| `EventKey` | the key under which the analyser groups assets |
| `ServiceRun`, `ServiceRows` | the scan loop of the service: what it writes to the event tables and the log tables, and its summary |
| `Gif`, `Jpeg` | the byte walkers that test a GIF for animation and find the size of a JPEG |
| `KeysetPaging`, `SmartSearch` | paging by id cursors and by offset cursors over an upstream ranking |
| `ConfigTree`, `ConfigRepository`, `ConfigStore` | nested configuration stored as rows of dotted paths |
| `ScanRun`, `ScanPlans`, `ScanStore` | the command-line scan: incremental scanning, the rows it writes, the stored summary |
| `RateLimiter`, `FrameAggregation`, `AutoScan`, `RetryLoop` | the sliding-window rate limiter, video frame aggregation, the auto-scan cursor, the HTTP retry loops |
| `PyText`, `Decimal`, `StringOrder`, `Bytes`, `Permutations` | text, number, ordering, byte and list vocabulary |

Operations that change state in place are class methods or loops (`EventStore.UserScopedState`, `ServiceRun.ScanRunner`,
`ScanStore.StateStore`, `ConfigStore.ConfigDB`, `RateLimiter.InMemoryRateLimiter`, `AutoScan.AutoScanRow`,
`RetryLoop.HttpImmichClient`, the parsers and the list-building loops). Each is proved equal to a function on values,
and the laws are proved about that function. Rows are maps from their primary key; the event tables are shared by
all users, and every method of `UserScopedState` is also proved to leave all other users' rows alone.

## Where the code falls short of what is expected of it

Each of these is the exact condition under which the expectation holds, proved for all inputs.

- `docs/admin/operations.md` line 219 promises that new assets matching a merged source key join the target until
  reset. The code follows one merge link only, so this holds if and only if the target was not merged away in turn
  (`EventRuns.LateIngestReachesSurvivor`), and the asset is shown if and only if the target was neither merged nor
  reset (`EventRuns.LateIngestVisible`). `EventWitness` exhibits runs from an empty store that violate each condition,
  and others that end in the failures of the next point.
- Rename and merge commit first and look the event up afterwards: on visible but empty events they raise
  `LookupError` and have written all the same (`EventLaws.MergeRaisesAfterWriting`, `EventLaws.FailedMergeWrites`,
  `EventLaws.RenameRaisesAfterWriting`, `EventLaws.FailedRenameWrites`). The other calls write nothing when they raise.
- `docs/admin/operations.md` line 218 says that a renamed title is not overwritten unless the event is reset. A reset
  makes a renamed event automatic again if and only if one of its assets still reports its key; otherwise the manual
  title outlives the reset (`EventReset.ResetMakesAutomaticIff`, `EventWitness.ManualTitleOutlivesReset`).
- Unflattening undoes flattening if and only if no key contains a dot and an empty key at the top level holds no
  non-empty dictionary (`ConfigRepository.RoundTripIffRecoverable`); what is stored also reads back unchanged only
  without nulls, which come back as the text `None`, and without floats that print without a point, such as `1e+16`:
  one of them, and reading the table raises (`ConfigStore.StoreRoundTrip`, `ConfigStore.FloatMakesUnreadable`).
- A bulk upsert over an existing table deletes nothing, so the written configuration reads back if and only if no other
  path was there before (`ConfigStore.OverwriteLeavesIff`, `ConfigStore.OverwriteReadsBackIff`).
- An upstream page whose next page number is infinite raises out of an auto-scan tick, which stores nothing
  (`AutoScan.AutoScanRow.RunUserTick`).
- Keyset paging visits the whole listing if and only if the first page is not the empty id alone with more to come,
  because an empty cursor counts as none (`KeysetPaging.PagingCompleteIff`).
- Smart search ends early on malformed or repeated upstream items. It visits all hits for every schedule of page
  sizes if and only if they all stand before the first such item, or among the first two items
  (`SmartSearch.CompleteIffPrompt`, and `SmartSearch.RepeatedItemEndsSearch` for a ranking that fails).
- An asset that was processed before, whose content changed and whose new classification fails, is not retried: its
  new checksum is already stored (`ScanRun.LeftForNextRun`, `ScanRun.SecondRunIdle`, and
  `ScanRun.ChangedAssetForgotten` for two such runs).

## Model

| member | source | states |
|---|---|---|
| `PyText.CollapseIsSpacedWords` | src/mediarefinery/service/state_store.py:2497 | The text of a title is its words, joined by single spaces. |
| `PyText.ClampIsNearest` | src/mediarefinery/service/state_store.py:1991 | The page size used is from 1 to 100, and none of these is nearer to the one asked for. |
| `EventModel.NormalizedTitle` | src/mediarefinery/service/state_store.py:2496-2500 | A title without words is refused; any other becomes its words joined by single spaces, cut at 160 characters. |
| `EventModel.AutoIdsInjective` | src/mediarefinery/service/state_store.py:2491-2494 | The id of an automatic group identifies its key: the model puts the key itself where the source puts its digest, so this is the assumption that digests do not collide. |
| `EventModel.ManualIdsInjective` | src/mediarefinery/service/state_store.py:2395-2405 | The id of a split-off group determines the draw it was made from. |
| `EventInvariant.EnsureKeeps` | src/mediarefinery/service/state_store.py:2315-2378 | Finding or creating the group of a key keeps groups valid, loses no group and answers an existing one, also when it follows a merge link. |
| `EventInvariant.MarkMergedKeeps` | src/mediarefinery/service/state_store.py:949-967 | Marking visible sources as merged into an unmerged target cannot close a cycle of merge links: a new ranking is constructed. |
| `EventInvariant.SyncKeeps` | src/mediarefinery/service/state_store.py:2262-2313 | Synchronising one membership keeps the tables valid, in both the preserving and the resetting mode. |
| `EventInvariant.ResetAllKeeps` | src/mediarefinery/service/state_store.py:1140-1158 | The loop of a reset keeps the tables valid and leaves every group without auto key exactly as it is. |
| `EventInvariant.ApplyKeeps` | src/mediarefinery/service/state_store.py:863-1178 | Every call, failing ones included, keeps the invariant: events are null exactly on `removed` rows, every other membership names an existing group, ids match auto keys, only groups without auto key are `reset`, exactly the merged groups carry a link to another existing group, and links have a ranking. |
| `EventInvariant.ReachableIsValid` | src/mediarefinery/service/state_store.py:188-228 | Every state that any sequence of calls reaches from the empty store satisfies the invariant, although the schema has no foreign key from memberships to groups. |
| `EventInvariant.MergeLinksTerminate` | src/mediarefinery/service/state_store.py:949-967 | In every reachable state, following merge links from any group ends at an existing group that is not merged. |
| `EventInvariant.AutoKeysUnique` | src/mediarefinery/service/state_store.py:199-211 | In every reachable state, each auto key has at most one group, with the id derived from it. |
| `EventLaws.SumIsUnion` | src/mediarefinery/service/state_store.py:798-835 | The counts shown for distinct events add up to the size of the union of their assets: no asset is counted twice. |
| `EventLaws.CleanIdsAre` | src/mediarefinery/service/state_store.py:2533-2541 | The ids a call works on are the stripped, non-blank ones it was given, each once. |
| `EventLaws.ShowsExactly` | src/mediarefinery/service/state_store.py:798-835 | A call answers with the event, its title, status and number of assets if it is shown, and raises `LookupError` if and only if it is hidden or empty. |
| `EventLaws.RenamesExactly` | src/mediarefinery/service/state_store.py:863-898 | What a rename answers and stores, in every case: `LookupError` for a hidden event before anything else, `ValueError` for a blank title; otherwise the title of spaced words, cut at 160, and manual status. |
| `EventLaws.MergeAnswersExactly` | src/mediarefinery/service/state_store.py:900-983 | When a merge raises which error, in the order of the checks, and the event it answers with otherwise. |
| `EventLaws.MergeMarksExactly` | src/mediarefinery/service/state_store.py:949-967 | Exactly the distinct sources other than the target become `merged`, with a link to the target and the rest of their rows kept. |
| `EventLaws.MergeConserves` | src/mediarefinery/service/state_store.py:900-983 | After a merge the target shows the assets of the target and all distinct sources, their counts summed; every source is empty, hidden and linked to the target. |
| `EventLaws.MergePins` | src/mediarefinery/service/state_store.py:932-948 | A merge makes the target manual and turns every membership of the target and its sources into a manual one of the target that keeps its key. |
| `EventLaws.MergeFrame` | src/mediarefinery/service/state_store.py:917-968 | A merge changes no other group, no membership in another group, and adds or drops no membership. |
| `EventLaws.MergeRaisesAfterWriting` | src/mediarefinery/service/state_store.py:917-983 | A merge of visible events raises `LookupError` exactly when they are all empty, and has always changed the tables. |
| `EventLaws.FailedMergeWrites` | src/mediarefinery/service/state_store.py:900-983 | A merge that raises leaves the tables unchanged if and only if its arguments were refused. |
| `EventLaws.SplitConserves` | src/mediarefinery/service/state_store.py:985-1077 | A split moves exactly the chosen assets to the new event, pins them by hand, keeps the combined count, and always shows the new event. |
| `EventLaws.SplitFrame` | src/mediarefinery/service/state_store.py:1004-1062 | A split changes no existing group row, no other event's assets and no membership outside the chosen assets. |
| `EventLaws.SplitsExactly` | src/mediarefinery/service/state_store.py:985-1077 | When a split raises which error; otherwise the new group has the given title and manual status, and the chosen assets are pinned to it and keep their keys. |
| `EventLaws.RemoveConserves` | src/mediarefinery/service/state_store.py:1091-1114 | Removing an asset lowers the count of that event by one, keeps its row with its key as `removed`, and leaves every other row of every table, with its key and assignment, as it was. |
| `EventLaws.RemovesExactly` | src/mediarefinery/service/state_store.py:1079-1114 | A removal succeeds if and only if the event is visible and the row of the asset names that event; otherwise it raises `LookupError` and changes nothing. |
| `EventLaws.RenameRaisesAfterWriting` | src/mediarefinery/service/state_store.py:863-898 | A rename of a visible event raises `LookupError` exactly when it shows no asset, with the new title and manual status already stored. |
| `EventLaws.FailedRenameWrites` | src/mediarefinery/service/state_store.py:863-898 | A rename that raises leaves the tables unchanged except exactly when a visible event got a title or status it did not have. |
| `EventLaws.RefusalsWriteNothing` | src/mediarefinery/service/state_store.py:673-1178 | Split, remove, reset and ingest write nothing when they raise. |
| `EventReset.RestoreOne` | src/mediarefinery/service/state_store.py:1140-1158 | One round of the reset loop puts the asset where a first ingest would, resets that group's row, and changes nothing else. |
| `EventReset.RestoreBoth` | src/mediarefinery/service/state_store.py:1140-1158 | A later round never undoes what an earlier one restored, even when both assets share a key. |
| `EventReset.ResetRestores` | src/mediarefinery/service/state_store.py:1123-1178 | After a reset, in any row order: former members with a key are automatic members of their key's own group, which is `auto` again even if merged or renamed; those without have no row; nothing names a retired event; all else is unchanged, the event's own row included where no former member reports its key. |
| `EventLaws.ResetAnswersExactly` | src/mediarefinery/service/state_store.py:1123-1178 | A reset raises `LookupError` if and only if the event is hidden, and answers `None` or the event as it is shown afterwards. |
| `EventReset.ResetMakesAutomaticIff` | src/mediarefinery/service/state_store.py:1140-1168 | A reset event with an auto key is automatic afterwards if and only if it was before or a former member reports that key; otherwise its row stays as it was, manual title included. |
| `EventReset.ResetOrderOnlyAffectsTitles` | src/mediarefinery/service/state_store.py:1130-1178 | The order in which a reset visits its rows affects neither memberships nor statuses. |
| `EventRuns.IngestProtects` | src/mediarefinery/service/state_store.py:2278-2378 | One ingest leaves hand-made memberships, all statuses, all merge links and the titles of non-automatic groups as they are. |
| `EventRuns.IngestsExactly` | src/mediarefinery/service/state_store.py:2262-2378 | What an ingest leaves, in every case: an absent or automatic group gets the title, sort key and source of the analysis, a manual one the sort key and source, a merged one nothing; the asset, if not placed by hand, becomes an automatic member of that group or of its merge target; everything else stays. |
| `EventRuns.IngestRefusesExactly` | src/mediarefinery/service/state_store.py:673-690 | An ingest raises `LookupError`, and changes nothing, if and only if the asset is unknown. |
| `EventRuns.RescansProtect` | src/mediarefinery/service/state_store.py:2278-2378 | No sequence of rescans undoes manual work. |
| `EventRuns.MergeSurvivesRescans` | src/mediarefinery/service/state_store.py:2278-2293 | No sequence of rescans takes an asset away from the event it was merged into. |
| `EventRuns.IngestIdempotent` | src/mediarefinery/service/state_store.py:673-733 | Ingesting the same analysis twice equals ingesting it once, from any valid state. |
| `EventRuns.RescansGroup` | src/mediarefinery/service/state_store.py:2262-2378 | Where nothing was edited by hand, any further rescans keep every asset exactly where its latest analysis puts it and every group automatic. |
| `EventRuns.ShareGroupIffSameKey` | src/mediarefinery/service/state_store.py:2262-2378 | Without manual edits two assets share a visible group exactly when their latest analyses carry the same key, whatever was ingested before. |
| `EventRuns.RescanOrderIrrelevant` | src/mediarefinery/service/state_store.py:2262-2378 | Two histories of rescans that end with the same latest analyses end with the same memberships. |
| `EventRuns.LateIngestLands` | src/mediarefinery/service/state_store.py:2315-2378 | A late asset lands in the group of its key, or in the target of that group's merge link. |
| `EventRuns.LateIngestReachesSurvivor` | src/mediarefinery/service/state_store.py:2349-2353 | A late asset reaches the event at the end of the chain of merge links if and only if the target of the first link is not merged itself. |
| `EventRuns.LateIngestVisible` | src/mediarefinery/service/state_store.py:2349-2353 | A late asset is shown if and only if the event it lands in was neither merged nor reset. |
| `EventWitness.ChainedMergeMisplaces` | src/mediarefinery/service/state_store.py:2349-2353 | After merging A into B and B into C, a late asset with A's key lands in the hidden B while A's earlier asset is in C. |
| `EventWitness.ThreeEventsReachable` | src/mediarefinery/service/state_store.py:673-733 | Three ingests from an empty store reach a state in which that misplacement happens. |
| `EventWitness.ResetTargetMisplaces` | src/mediarefinery/service/state_store.py:1159-1168 | When a split-off event is reset while a group stays merged into it, a late asset with that group's key lands in the retired event. |
| `EventWitness.ResetTargetReachable` | src/mediarefinery/service/state_store.py:1159-1168 | A run from an empty store (two ingests, a split, a merge, a removal, a reset) after which a late asset lands in the retired event. |
| `EventWitness.FailedRenameSticks` | src/mediarefinery/service/state_store.py:888-898 | Renaming an event whose only asset was removed raises, and the new title stays. |
| `EventWitness.FailedRenameReachable` | src/mediarefinery/service/state_store.py:888-898 | A run from an empty store after which a rename raises and its title stays. |
| `EventWitness.FailedMergeReachable` | src/mediarefinery/service/state_store.py:968-982 | A run from an empty store after which a merge raises and has changed the tables. |
| `EventWitness.ManualTitleOutlivesReset` | src/mediarefinery/service/state_store.py:1140-1168 | A run from an empty store (ingest, rename, removal, reset) after which the event keeps its manual title and status. |
| `EventWitness.PlainNames` | src/mediarefinery/service/state_store.py:2491-2500 | Keys, ids and titles as the witness runs ask for them exist. |
| `EventStore.DedupeIds` | src/mediarefinery/service/state_store.py:2533-2541 | The list holds the stripped, non-blank ids, each exactly once. |
| `EventStore.UserScopedState.GetEventGroup` | src/mediarefinery/service/state_store.py:798-835 | Shows an event with the number of its assets, or raises when it is hidden or empty. |
| `EventStore.UserScopedState.SelectByAutoKey` | src/mediarefinery/service/state_store.py:2331-2338 | Looking a group up by its key column finds exactly the group with the derived id. |
| `EventStore.UserScopedState.EnsureAutoEventGroup` | src/mediarefinery/service/state_store.py:2315-2378 | The code on the shared table finds, creates or refreshes the group as specified, for this user only. |
| `EventStore.UserScopedState.SyncAssetEventMembership` | src/mediarefinery/service/state_store.py:2262-2313 | The code on the shared tables updates one membership as specified, for this user only. |
| `EventStore.UserScopedState.RecordAssetAnalysis` | src/mediarefinery/service/state_store.py:673-733 | Ingest changes this user's tables as specified, keeps them valid and leaves all other users' rows alone. |
| `EventStore.UserScopedState.RenameEventGroup` | src/mediarefinery/service/state_store.py:863-898 | Rename does and answers what is specified, keeps validity and leaves other users alone. |
| `EventStore.UserScopedState.MergeEventGroups` | src/mediarefinery/service/state_store.py:900-983 | Merge does and answers what is specified, keeps validity and leaves other users alone. |
| `EventStore.UserScopedState.MarkSources` | src/mediarefinery/service/state_store.py:949-967 | The loop over the source rows, each written from the row read before, marks exactly the sources as merged. |
| `EventStore.UserScopedState.NewManualEventId` | src/mediarefinery/service/state_store.py:2395-2403 | The id for a split is the first draw that is not taken. |
| `EventStore.UserScopedState.SplitEventGroup` | src/mediarefinery/service/state_store.py:985-1077 | Split does and answers what is specified under a free id, keeps validity and leaves other users alone. |
| `EventStore.UserScopedState.RemoveAssetFromEvent` | src/mediarefinery/service/state_store.py:1079-1114 | Remove does and answers what is specified, keeps validity and leaves other users alone. |
| `EventStore.UserScopedState.ResetEventGroup` | src/mediarefinery/service/state_store.py:1123-1178 | Reset, with its loop over the rows of the event, does and answers what is specified for some order of those rows, keeps validity and leaves other users alone. |
| `EventKey.SortedSorts` | src/mediarefinery/analysis.py:611-618 | Sorting gives a permutation in order. |
| `EventKey.InOrderUnique` | src/mediarefinery/analysis.py:611-618 | A list in order is determined by its elements, so cutting a sorted list keeps the same ones whatever order they came in. |
| `EventKey.KeyOrderIrrelevant` | src/mediarefinery/analysis.py:595-627 | The event key does not depend on the order in which people and albums are listed, for any normalisation of names. |
| `EventKey.KeyIs` | src/mediarefinery/analysis.py:595-627 | The key is the day, the place, the four least people and the two least albums, as far as there are any, put together with separators; there is none if and only if all are missing. |
| `EventKey.PeopleSlugsAre` | src/mediarefinery/analysis.py:595-613 | The people that count are exactly those with a name or an id, under their name if they have one. |
| `ServiceRun.ScanRunner.HandleAsset` | src/mediarefinery/service/runner.py:270-383 | One asset adds exactly its error, action and audit rows, rescans the asset in the event tables, counts what it wrote, and breaks the run only on an escaping exception. |
| `ServiceRun.ScanRunner.HandleAll` | src/mediarefinery/service/runner.py:270-383 | The loop writes the rows of all assets up to the first that breaks the run; unbroken, its counters equal the rows written. |
| `ServiceRun.ScanRunner.RunScan` | src/mediarefinery/service/runner.py:236-410 | A run completes exactly if nothing breaks it; completed, its stored errors and actions are the rows it added for the run; in every case the event tables stay valid, no manual work is lost and other users' events are untouched. |
| `ServiceRun.LocksAudited` | src/mediarefinery/service/runner.py:364-385 | For every asset there are as many `asset.locked` events as rows of the locked-folder action that succeeded outside a dry run, and as many `asset.locked.attempt` events as other rows of it. |
| `ServiceRows.ReachedIff` | src/mediarefinery/service/runner.py:270-383 | A run gets to a candidate if and only if it gets started and deals with all before it. |
| `ServiceRows.CompletesIff` | src/mediarefinery/service/runner.py:236-410 | A run completes if and only if it gets started, deals with every candidate, and the listing does not break off. |
| `ServiceRows.StoredAfter` | src/mediarefinery/service/runner.py:270-354 | Whatever else happens, there is then a row for every asset not broken off at once, and each has the latest of its analyses. |
| `ServiceRows.ErrorsRecorded` | src/mediarefinery/service/runner.py:279-328 | Every fault, warning and OCR error of a candidate is recorded, once each, and nothing else is. |
| `ServiceRows.ActionsRecorded` | src/mediarefinery/service/runner.py:364-383 | Every result of an action of an unbroken candidate has its row, as often as it occurs, and no other has. |
| `ServiceRows.QueuesCounted` | src/mediarefinery/service/runner.py:355-357 | The queue counts are those of the analyses that were recorded. |
| `Gif.SkipGifSubBlocks` | src/mediarefinery/service/runner.py:913-920 | The loop on arbitrary bytes ends and stops where the sub-block chain ends. |
| `Gif.IsAnimatedGif` | src/mediarefinery/service/runner.py:877-910 | The loop on arbitrary bytes ends, reads in bounds, and answers the specified walk. |
| `Gif.SkipEncoded` | src/mediarefinery/service/runner.py:913-920 | Skipping moves exactly over an encoded chain of sub-blocks of any lengths. |
| `Gif.SkipParses` | src/mediarefinery/service/runner.py:913-920 | Wherever skipping stops inside the data, it has moved over an encoded chain of sub-blocks. |
| `Gif.TableLength` | src/mediarefinery/service/runner.py:883-897 | A colour table of size field n is 2^(n+1) triples of bytes, and its length is read off any packed byte that carries the flag and n. |
| `Gif.AnimatedIffTwoImages` | src/mediarefinery/service/runner.py:877-910 | For every well-formed stream, its colour tables written out as triples, with any blocks, sub-blocks and bytes after the trailer, the answer is true exactly when it has two or more images. |
| `Gif.AnimatedIffStartsSo` | src/mediarefinery/service/runner.py:877-910 | For arbitrary bytes the answer is true exactly when they start with a header, well-formed blocks with exactly one image among them, and the marker of another image. |
| `Jpeg.InspectJpeg` | src/mediarefinery/extractor.py:359-412 | The loop on arbitrary bytes ends, reads in bounds, and gives a positive size or one of the declared errors. |
| `Jpeg.FrameFound` | src/mediarefinery/extractor.py:359-407 | After any segments, with any number of fill bytes and any payload, the size in the frame header is reported, whatever follows. |
| `Jpeg.FaultFound` | src/mediarefinery/extractor.py:359-407 | After any segments, each declared way for the stream to end without a frame header is reported with its own error. |
| `Jpeg.SizeIffFrame` | src/mediarefinery/extractor.py:359-407 | For arbitrary bytes after the start marker a size is reported exactly when segments and a frame header with that size stand there. |
| `KeysetPaging.ListPage` | src/mediarefinery/service/state_store.py:1985-2041 | One request answers the matching ids after the cursor, cut to the clamped page size, with a cursor exactly if more follow. |
| `KeysetPaging.AllIdsAscending` | src/mediarefinery/service/state_store.py:1193-1256 | The listing holds the ids of exactly the matching rows, ascending. |
| `KeysetPaging.PercentIsAnyText` | src/mediarefinery/service/state_store.py:1200-1212 | In a `LIKE` pattern a percent sign, wherever it stands, stands for any stretch of text. |
| `KeysetPaging.LikePlain` | src/mediarefinery/service/state_store.py:1200-1212 | Without percent signs a `LIKE` pattern fits character by character, letters A to Z in either case, underscores any character. |
| `KeysetPaging.ReviewAssetsAre` | src/mediarefinery/service/state_store.py:1193-1256 | An asset is listed for review exactly if it is analysed, in the event, has the quoted queue and the kind of media, and the query occurs in its id, its text or its analysis, each as far as it is asked for. |
| `KeysetPaging.UserAssetsAre` | src/mediarefinery/service/state_store.py:1985-2041 | An asset of the user is listed exactly if it was acted on and is in the event, if one is asked for. |
| `KeysetPaging.AfterIsGreater` | src/mediarefinery/service/state_store.py:1988-1990 | After any non-empty text as a cursor the listing goes on with its first greater id. |
| `KeysetPaging.NextPage` | src/mediarefinery/service/state_store.py:2033-2037 | A request from an id of the listing continues right after it. |
| `KeysetPaging.PagingCompleteIff` | src/mediarefinery/service/state_store.py:1985-2041 | Following the cursors, with any page sizes, ends with the whole listing if and only if the first page is not the empty id alone with more to come. |
| `KeysetPaging.CompletesInTime` | src/mediarefinery/service/state_store.py:1985-2041 | In the good case the listing is complete after at most one more request than it has ids. |
| `KeysetPaging.FetchStuck` | src/mediarefinery/service/state_store.py:1988-1990 | In that case the second request starts over and the empty id is seen twice. |
| `KeysetPaging.EveryMatchingAssetOnce` | src/mediarefinery/service/state_store.py:1193-1256 | With non-empty ids every asset that passes the event, queue, media-kind and text filters, `LIKE` patterns included, is visited exactly once, in order. |
| `SmartSearch.HitsFromItems` | src/mediarefinery/service/search.py:320-331 | The loop keeps the well-formed items, each id at its first occurrence. |
| `SmartSearch.HitsGrow` | src/mediarefinery/service/search.py:320-331 | Asking for more items only adds hits at the end, at most one for each further item. |
| `SmartSearch.CursorRoundTrip` | src/mediarefinery/service/search.py:284-296 | A cursor the search hands out is the prefix and the offset, and reads back as the offset it was made from. |
| `SmartSearch.OffsetIff` | src/mediarefinery/service/search.py:284-296 | A cursor gives an offset exactly if it is missing or empty, or is the prefix and the text of a number that is not negative. |
| `SmartSearch.RefusedIff` | src/mediarefinery/service/search.py:120-145 | A query without a word finds nothing, whatever the cursor; any other is refused if and only if its cursor is invalid. |
| `SmartSearch.PagesAreSlices` | src/mediarefinery/service/search.py:141-195 | At any time, whatever page sizes were asked for, the client has seen a first part of the de-duplicated ranking: nothing repeated, skipped or out of order. |
| `SmartSearch.PagesEnd` | src/mediarefinery/service/search.py:190-195 | Following the cursors ends. |
| `SmartSearch.CompleteIffPrompt` | src/mediarefinery/service/search.py:141-195 | For every schedule of page sizes paging ends with all hits, if and only if they stand before the first malformed or repeated item or among the first two items. |
| `SmartSearch.RepeatedItemEndsSearch` | src/mediarefinery/service/search.py:190-194 | On a ranking whose second item repeats the first, asking for single hits ends after one hit although there are two. |
| `SmartSearch.DistinctItemsAreComplete` | src/mediarefinery/service/search.py:141-195 | Distinct, well-formed items are visited in order, up to the cap of 1000, even when the page size changes. |
| `ConfigTree.LeavesInjective` | src/mediarefinery/settings/repository.py:100-108 | A nested dictionary is determined by its leaves. |
| `ConfigTree.InsertLeaf` | src/mediarefinery/settings/repository.py:114-122 | One round of unflattening adds one leaf and keeps all others, where the path begins no other path and none begins it. |
| `ConfigTree.BuildOrderIrrelevant` | src/mediarefinery/settings/repository.py:111-123 | Unflattening prefix-free rows does not depend on their order. |
| `ConfigTree.InsertKnown` | src/mediarefinery/settings/repository.py:114-122 | Assigning what stands in a dictionary at a path to a part of that dictionary gives a part of it again and loses no leaf, whatever was there. |
| `ConfigRepository.SplitJoin` | src/mediarefinery/settings/repository.py:115 | Splitting a joined path of dot-free keys gives the keys back. |
| `ConfigRepository.JoinSplit` | src/mediarefinery/settings/repository.py:115 | Joining a split path gives the path back, and the parts have no dots. |
| `ConfigRepository.Flatten` | src/mediarefinery/settings/repository.py:99-108 | The recursion writes every leaf under its path; paths that coincide keep one of their values. |
| `ConfigRepository.Unflatten` | src/mediarefinery/settings/repository.py:110-123 | The loop gives the dictionary that inserting the split rows one by one gives, later rows overwriting what they pass through. |
| `ConfigRepository.RoundTripIffRecoverable` | src/mediarefinery/settings/repository.py:99-123 | Flattening and unflattening, with rows in any order, is the identity if and only if no key has a dot and an empty top-level key holds no non-empty dictionary. |
| `ConfigRepository.FlattenUndoesUnflatten` | src/mediarefinery/settings/repository.py:99-123 | For prefix-free rows, flattening undoes unflattening if and only if no path begins with a dot. |
| `ConfigRepository.OrderMattersForPrefixes` | src/mediarefinery/settings/repository.py:111-123 | Where one path begins another, two orders of the rows give different dictionaries. |
| `ConfigStore.LoadStore` | src/mediarefinery/settings/repository.py:65-97 | A value reads back as itself, except null, which reads back as the text `None`, and a float that prints without a point, which cannot be read back. |
| `ConfigStore.StoredForms` | src/mediarefinery/settings/repository.py:65-84 | The text and type under which each kind of value stands in the table. |
| `ConfigStore.BooleanRead` | src/mediarefinery/settings/repository.py:86-90 | A stored boolean is true if its text is `true` in any case of letters, and false for any other text. |
| `ConfigStore.StoreRoundTrip` | src/mediarefinery/settings/repository.py:16-63 | A configuration written to an empty table reads back unchanged if and only if it is recoverable, holds no null, and holds no float that prints without a point; one such float makes reading raise. |
| `ConfigStore.OverwriteReadsBackIff` | src/mediarefinery/settings/repository.py:58-63 | Written over any readable table, a configuration reads back in every row order if and only if each old row that was not overwritten holds what stands in the configuration at its path. |
| `ConfigStore.OverwriteLeavesIff` | src/mediarefinery/settings/repository.py:58-63 | Over a table as bulk upserts leave it, that is the case if and only if every old path is a path of the new configuration: nothing is ever deleted. |
| `ConfigStore.FloatMakesUnreadable` | src/mediarefinery/settings/repository.py:92 | A configuration of the one value `1e+16` can be written to an empty table, and reading it then raises. |
| `ConfigStore.ConfigDB.BulkUpsert` | src/mediarefinery/settings/repository.py:58-63 | Every flattened row is stored with its type, other rows stay, and the count is the number of rows. |
| `ConfigStore.ConfigDB.GetNested` | src/mediarefinery/settings/repository.py:25-27 | Reading raises exactly if some row does not decode; otherwise it unflattens the decoded rows in some order. |
| `ConfigStore.WriteThenRead` | src/mediarefinery/settings/repository.py:16-63 | Writing to a new table and then reading it, loops included, returns what was written under exactly that condition. |
| `RateLimiter.RefinesPlainLog` | src/mediarefinery/service/security.py:358-373 | For times in order the limiter permits exactly when fewer than the maximum of permitted events lie in the window, denies only when the maximum lies in it, and never keeps more than the maximum. |
| `RateLimiter.PermittedSpread` | src/mediarefinery/service/security.py:358-373 | Any maximum-plus-one successive permitted events of a key span more than the window. |
| `RateLimiter.KeysIndependent` | src/mediarefinery/service/security.py:358-373 | After any calls, the bucket of a key is what its own calls alone would leave. |
| `RateLimiter.InterleavedDecisions` | src/mediarefinery/service/security.py:358-373 | For calls of any keys in order of time, each is permitted exactly when fewer than the maximum of permitted calls of its own key lie in the window. |
| `RateLimiter.InMemoryRateLimiter.Check` | src/mediarefinery/service/security.py:358-373 | The popping and appending on the stored bucket decides and updates as specified and leaves all other keys alone. |
| `ScanRun.ClassifyAgrees` | src/mediarefinery/pipeline.py:100-211 | Taking up one asset keeps plan and error counters equal to the rows of the run, whatever the classifier says and whichever of its actions fail. |
| `ScanRun.VisitAllAgrees` | src/mediarefinery/pipeline.py:91-211 | A whole scan of any listing keeps them equal, in every category and for every action, with results that may differ from asset to asset and action to action, and however often an asset is listed. |
| `ScanPlans.WritesAsAsked` | src/mediarefinery/pipeline.py:91-211 | Whatever came before, a listed asset is taken up exactly if it is due and then leaves exactly the rows its classification and its policy ask for: the listed actions in order with the results they had, or `no_action` with one decision error of the right code; every failed action leaves its error row. |
| `ScanPlans.AskedUnique` | src/mediarefinery/decision.py:116-187 | A configuration asks for one list of actions and one decision error or none for each category and media type. |
| `ScanPlans.OnlyListedActions` | src/mediarefinery/decision.py:116-187 | Over a whole run no action other than `no_action` is recorded for an asset whose policy does not list it. |
| `ScanRun.ReportTotals` | src/mediarefinery/state.py:1208-1283 | In the report grouped by action and error code, and by error stage and code, the totals sum to the number of planned actions and of errors of the run. |
| `ScanRun.YieldedPlusSkipped` | src/mediarefinery/scanner.py:136-161 | Assets taken up plus assets skipped are the listed assets that pass the filters. |
| `ScanRun.LeftForNextRun` | src/mediarefinery/state.py:670-696 | After a scan of distinct assets, a matching asset needs processing again if and only if it was taken up, failed to classify and was never processed before. |
| `ScanRun.SecondRunIdle` | src/mediarefinery/scanner.py:136-161 | A second scan of the same distinct assets, under the same filters, takes up nothing and skips every matching one, if and only if no new asset failed in the first. |
| `ScanRun.ChangedAssetForgotten` | src/mediarefinery/state.py:1109-1119 | Two runs from an empty store after which a changed asset is on record with the category of its old content and is never taken up again. |
| `ScanStore.Summarize` | src/mediarefinery/reporter.py:181-217 | The summary counts plans, their categories and their actions, and lists no name with count zero. |
| `ScanStore.PagesMakeListing` | src/mediarefinery/immich.py:1234-1242 | Following the page tokens from the start, with any page size, gives the listing: each asset once, in order. |
| `ScanStore.PageAt` | src/mediarefinery/immich.py:1234-1242 | A page is full and followed by a token, or it is the last: no token leads to an empty page. |
| `ScanStore.StateStore.TakeUp` | src/mediarefinery/pipeline.py:100-211 | The code that takes one asset up writes the rows and moves the counters as specified. |
| `ScanStore.StateStore.ScanPages` | src/mediarefinery/scanner.py:136-161 | For any page size the token loop visits every listed asset once and in order. |
| `ScanStore.StateStore.RunScan` | src/mediarefinery/pipeline.py:91-227 | The stored summary of a finished run equals the counts recomputed from its rows (processed, categories, actions over all error codes, errors), and the run is `succeeded` exactly when it has no error row. |
| `FrameAggregation.AggregateOutputs` | src/mediarefinery/classifier.py:422-483 | Each error is raised exactly in its case; otherwise the category is that of the greatest aggregated score, ties going to the earliest label, and it always exists. |
| `FrameAggregation.Best` | src/mediarefinery/classifier.py:464-473 | The winner has the greatest score and is the earliest among equals, whatever order the scores come in. |
| `FrameAggregation.WinnerUnique` | src/mediarefinery/classifier.py:464-473 | There is only one winner. |
| `FrameAggregation.FrameOrderIrrelevant` | src/mediarefinery/classifier.py:433-462 | Permuting the frames changes no aggregated score. |
| `FrameAggregation.VerdictOrderIrrelevant` | src/mediarefinery/classifier.py:422-483 | Two verdicts on the same frames in whatever orders are the same: category, scores or error. |
| `FrameAggregation.MaxNeverFalls` | src/mediarefinery/classifier.py:459-462 | Adding frames never lowers a `max` score. |
| `FrameAggregation.MeanBetween` | src/mediarefinery/classifier.py:454-458 | A `mean` score lies between the least and the greatest of the frames. |
| `FrameAggregation.ScoredIff` | src/mediarefinery/classifier.py:433-462 | A label has an aggregated score exactly if it is mapped and some frame scores it. |
| `FrameAggregation.MaxScoreIs` | src/mediarefinery/classifier.py:459-462 | A `max` score is the greatest score of the frames that score the label. |
| `FrameAggregation.MeanScoreIs` | src/mediarefinery/classifier.py:454-458 | A `mean` score times the number of frames that score the label is the sum of their scores. |
| `AutoScan.MaxTakenAt` | src/mediarefinery/service/auto_scan.py:193-205 | The loop gives the latest of the current cursor and the usable time stamps. |
| `AutoScan.LatestIsLatest` | src/mediarefinery/service/auto_scan.py:193-205 | The value is one of those it was taken from and none of them is later. |
| `AutoScan.WalkBounded` | src/mediarefinery/service/auto_scan.py:253-306 | A tick makes at most `max_pages` requests, whatever next pages come back. |
| `AutoScan.WalkEndsWellIff` | src/mediarefinery/service/auto_scan.py:253-306 | A walk ends well after n pages exactly if these replies are good, each names the next, and the last names none or is the last allowed; it has then seen all their items. |
| `AutoScan.WalkFailsIff` | src/mediarefinery/service/auto_scan.py:253-302 | A walk fails with a code exactly if the first reply that does not lead on fails with that code. |
| `AutoScan.EndsOkIff` | src/mediarefinery/service/auto_scan.py:233-352 | A tick ends well after n pages exactly if it could read them well and a scan it had to dispatch raised nothing; it answers the number of their items and the run, if one was submitted. |
| `AutoScan.EndsInErrorIff` | src/mediarefinery/service/auto_scan.py:233-352 | Which error a tick answers, with which counts, told from the session and the replies alone, in every case. |
| `AutoScan.CrashesIff` | src/mediarefinery/service/auto_scan.py:185-191 | An exception escapes from a tick exactly for an infinite next page at the end of the walk, or another error of the dispatch. |
| `AutoScan.TickStores` | src/mediarefinery/service/auto_scan.py:333-340 | A tick stores when it ran and how it ended, as it answers it; nothing if an exception escapes. |
| `AutoScan.AutoScanRow.RunUserTick` | src/mediarefinery/service/auto_scan.py:211-352 | The loop and its exits, escaping exceptions included, store and answer what is specified, with at most one dispatch, made exactly when the replies are read well and hold items. |
| `AutoScan.CursorIsLatest` | src/mediarefinery/service/auto_scan.py:333-340 | After any ticks the stored cursor is the latest of its first value and all time stamps seen in ticks that ended well. |
| `AutoScan.CursorNeverBack` | src/mediarefinery/service/auto_scan.py:333-340 | No tick moves the cursor back, and a tick that ends in an error does not move it. |
| `AutoScan.DisabledOnlyWithoutSession` | src/mediarefinery/service/auto_scan.py:233-282 | Polling is disabled exactly without a session or when the server says it has expired. |
| `RetryLoop.TotalDelayIs` | src/mediarefinery/immich.py:1144-1149 | The exponential delays of n attempts add up to b * (2^n - 1). |
| `RetryLoop.SleepBound` | src/mediarefinery/immich.py:1144-1149 | A call sleeps at most b * (2^n - 1) + n * b for n retries, jitter included. |
| `RetryLoop.HttpImmichClient.RequestBytes` | src/mediarefinery/immich.py:1033-1063 | At most n + 1 attempts; the call ends inside the loop with what the first attempt that is not retried, or the last, answers, where a body that breaks off counts as no connection whatever the status. |
| `RetryLoop.BrokenOffIsUnreachable` | src/mediarefinery/immich.py:1040-1050 | The call ends as unreachable exactly if no attempt is left and the last reply did not arrive whole. |
| `RetryLoop.BytesRetriedIff` | src/mediarefinery/immich.py:1033-1063 | The call ends at the first attempt that is neither cut short nor answered with an unexpected 429 or 5xx status, or else at the last. |
| `RetryLoop.BytesAnswer` | src/mediarefinery/immich.py:1033-1063 | It then answers the body of a whole reply with an expected status, and which error otherwise. |
| `RetryLoop.HttpImmichClient.RequestToFile` | src/mediarefinery/immich.py:1088-1133 | The same for downloads; a saved file is exactly the body of the returned length and within the limit, and no failure leaves a file. |
| `RetryLoop.DownloadRetriedIff` | src/mediarefinery/immich.py:1088-1133 | A download is repeated after no connection, an unexpected 429 or 5xx status, or a body that breaks off within the limit, and after nothing else. |
| `RetryLoop.DownloadAnswer` | src/mediarefinery/immich.py:1088-1133 | What a download answers for its last reply, in every case. |

## Left out

- EventModel.AutoEventId: the digest of the key is modelled as an injective function; two keys whose truncated SHA-256 digests collide are not.
- EventModel.InputOf: the title, sort key and source composed from an analysis are given, not composed; only that they are kept or replaced is modelled.
- EventReset.ResetOrderOnlyAffectsTitles: titles, sort keys and sources of groups shared by several members do depend on the order, so nothing is said about them.
- EventStore.UserScopedState.NewManualEventId: assumes that some draw of the random source is free; each method is one atomic step, so locks and concurrent callers are not modelled.
- EventKey.KeyOrderIrrelevant: the normalisation of names is a parameter, so the regular expression behind it is not modelled.
- Timestamps, audit rows of manual edits, the list of event groups and the asset rows behind it.
- SQLite, JSON text, encryption, OCR, models and ffmpeg: tables are maps and sequences, JSON documents are values, and what foreign code answers is a parameter.
- ServiceRun.ScanRunner.RunScan: how the classifier, the OCR, the analysis and the executor reach their answers is a parameter, as is where an exception escapes; failures of the store itself are not modelled.
- Jpeg.SizeIffFrame: like the code, every marker other than start, end, scan and frame markers counts as carrying a length; restart markers before a frame header are read as segments.
- The fixed-offset inspections of PNG and GIF headers, which are single reads.
- KeysetPaging.ListPage: the joins that compute a row's event and analysis are part of the row.
- SmartSearch.SemanticOffset: the spaces, signs and underscores that Python accepts in an integer are refused as malformed here; cursors made by the search never hold them.
- SmartSearch.PagesAreSlices: the upstream ranking is fixed over the requests; HTTP failures and scores are not modelled.
- ConfigStore.LoadStore: a floating-point number is represented by the text Python prints for it, and reading a text with a point gives that text's number; texts that no float prints as are never stored. Dictionaries inside lists are not taken apart.
- ConfigRepository.Unflatten: nested dictionaries are values, so updating them in place through an alias is not modelled.
- FrameAggregation.MeanBetween: scores are real numbers; rounding of floating-point sums, which can depend on the order of frames, is not modelled.
- RateLimiter.RefinesPlainLog: times are real numbers that do not go back, as the clock of the source promises; the lock around a check is not modelled.
- ScanStore.StateStore.RunScan: the listing is fixed during a run; configuration snapshots, model versions and the text of page tokens are not modelled, and the effect of an action is a parameter.
- AutoScan.AutoScanRow.RunUserTick: the loop over all users, due times and audit details are not modelled.
- RetryLoop.HttpImmichClient.RequestToFile: failures of the file system and the pacing of requests are not modelled.
- Rotation of encrypted columns, redaction, the catalog of models, doctor checks, HTTP routes and the user interface.
