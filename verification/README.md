# Memelo: verified cores

A Dafny 4.11 model of the storage, job and cursor code of Memelo, with proofs of what that code keeps. The search
index, the media bucket, ffmpeg, the downloaders and the language models are abstract: state, or parameters that say how each
outside call turns out, so every theorem holds for all of their answers.

`dafny verify dfyconfig.toml` checks everything.

| Part | Modules |
|---|---|
| Recompute worker pool | `RecomputePool`, `RecomputeInvariant`, `RecomputeRuns`, `RecomputeJob` |
| Cursors: paging, searcher chain, tokens, sessions | `Sorting`, `Paging`, `SearchChain`, `Base64`, `UuidText`, `DecimalText`, `OffsetFormat`, `OffsetCodec`, `Sessions`, `TelegramListing`, `SortValueText`, `PagingLimits` |
| Library under create, update, delete, recompute, export | `Entities`, `LibraryState`, `PipelineMeaning`, `LibraryRuns`, `Library`, `LibraryLimits` |
| Temporary objects and the jobs that own them | `HandleRace`, `TempObjects`, `FfmpegActions`, `FfmpegJobs`, `FfmpegClient`, `YoutubeJobs`, `Retention`, `Slots` |
| Index migrations with crashes | `Migrations` |
| Algorithms | `VideoSlicer`, `SliceMerge`, `PipelineOrder`, `RegisteredSteps`, `MemeGrid`, `QueryTags` |
| Shared values | `GoText` |

How to read it. Code that updates state is a class or a method with loops, proved equal to a function or relation over values;
concurrent code is a transition system whose steps are the actions between two synchronisations, and a run is any sequence of
enabled steps. The main results are lemmas about those functions, relations and runs.

Where the obvious claim is false of the code, the exact condition is proved instead:

- paging by account is complete exactly when no page boundary separates two documents created at the same time (`Paging.WalkIsComplete`, `TelegramListing.SessionShowsAccount`, `Library.DeleteAllEmptiesAccount`); `PagingLimits` has walks, sessions and an account that lose one;
- a token gives its cursor back canonicalised exactly when the cursor is not blank and its lengths fit 16 and 8 bits (`OffsetFormat.TokenRoundTrip`), and unchanged exactly when its elements are spelled canonically besides (`OffsetFormat.TokenPreservesIff`; `OffsetFormat.LeadingZerosAreLost`);
- a create that reports an error may still have added its document, exactly when only the presigned urls failed (`LibraryRuns.FailedCreateLeavesIndex`; `LibraryLimits.FailedCreateCanAdd`);
- media stay complete under every operation except exactly the deletes that stop half way and the recomputes that remove a duplicate with their own media and do not store these again (`LibraryRuns.StepKeepsMedia`; `LibraryLimits.HalfWayDeleteTearsMedia`, `LibraryLimits.DuplicateRemovalDropsMedia`);
- hashes stay unique under every operation except exactly the recomputes whose stored original has the hash of another document that stays (`LibraryRuns.StepKeepsHashUnique`; `LibraryLimits.RecomputeCanRepeatHash`);
- a YouTube job leaves an object nobody closes exactly when the cleaner comes by its expired entry before it has a result (`YoutubeJobs.OrphansAreTheSweptJobs`, `YoutubeJobs.SlowJobLeavesOrphan`);
- a successful start has applied the whole migration directory exactly when no file up to the recorded name is new (`Migrations.SuccessAppliesDirectoryIff`, `Migrations.LateFileIsSkipped`);
- the token of a relevance cursor stays within Telegram's 64 bytes exactly if the score is a small number or a text of ten characters at most (`SortValueText.ScoreTokenIsShortIff`);
- a row of the meme grid has no finite size exactly when it is not the last and none of its items has a positive width (`MemeGrid.RowIsFiniteIff`; `MemeGrid.NarrowRowIsNotFinite`);
- a negative overlap is accepted and leaves gaps unless one slice is enough (`VideoSlicer.CoverageIffOverlapNotNegative`);
- racing callers can reach an upload function that does not exist exactly if the handle was made for an empty path and one of them wants the path (`HandleRace.PanicsIff`, `HandleRace.EmptyPathPanics`).

## Model

| member | source | states |
|---|---|---|
| `RecomputeRuns.Conservation` | services/storage-service/service/RecomputeService.go:113-191 | at every moment of every interleaving: dispatched documents are the recorded ones plus those under way, at most four workers hold a slot, the int32 counter shows the number of recorded ids, no document is dispatched twice or has two errors |
| `RecomputeRuns.ErrorsAreTheFailures` | services/storage-service/service/RecomputeService.go:151-165 | at every moment of every schedule the documents with an error are exactly those whose recompute failed and whose worker has gone on since, each with one |
| `RecomputeRuns.DoneIsComplete` | services/storage-service/service/RecomputeService.go:177-188 | a Done job has nothing in flight; its recorded ids are a permutation of everything fetched, which includes every document that matched all the queries |
| `RecomputeRuns.FinalStatesAreAbsorbing` | services/storage-service/service/RecomputeService.go:127-134 | Done and Failed never change again, and nothing at all can happen after Done |
| `RecomputeRuns.SomebodyCanMove` | services/storage-service/service/RecomputeService.go:140-183 | no deadlock: unless dispatcher and workers are all finished, some step is enabled |
| `RecomputeRuns.StepDecreasesMeasure` | services/storage-service/service/RecomputeService.go:125-181 | every step lowers one measure of documents left to fetch, documents left to dispatch and worker stages left |
| `RecomputeRuns.EveryScheduleEnds` | services/storage-service/service/RecomputeService.go:113-191 | every schedule has at most 9n + 4 states for n documents; one that cannot go on has left the job Done or Failed, everything dispatched recorded, every slot free |
| `RecomputeRuns.RunKeepsInv` | services/storage-service/service/RecomputeService.go:122-183 | semaphore, wait group, job record, cursor and fetched documents agree at every moment of every run |
| `RecomputeInvariant.PageExtends` | services/storage-service/storage/MetadataStorageService.go:521-556 | a page of the raw query is ascending, lies behind the cursor, and passes over no matching document up to the new cursor |
| `RecomputeJob.Pool.RunJob` | services/storage-service/service/RecomputeService.go:113-191 | under any schedule the executed job goes through the states of a run, makes at most 9n + 3 steps, and where nothing can move it is Done or Failed with everything dispatched recorded; the documents with an error are exactly those whose recompute failed, one error each |
| `OffsetCodec.SerializeOffset` | services/telegram-service/util/OffsetSerialization.go:168-189 | the writer produces exactly the token of the format |
| `OffsetCodec.ParseOffset` | services/telegram-service/util/OffsetSerialization.go:140-166 | the reader yields exactly the offset the token denotes, none for any malformed token |
| `OffsetCodec.Buffer.WriteTypObj` | services/telegram-service/util/OffsetSerialization.go:109-139 | an element is appended as UUID, else as 32-bit number, else as text |
| `OffsetCodec.Reader.ReadTypObj` | services/telegram-service/util/OffsetSerialization.go:84-107 | an element is read by its type byte; short reads and unknown types fail; the position advances past it |
| `OffsetCodec.ReadList` | services/telegram-service/util/OffsetSerialization.go:153-164 | the loop that fills the array reads exactly the announced elements or fails |
| `OffsetFormat.TokenRoundTrip` | services/telegram-service/util/OffsetSerialization.go:140-189 | parsing a serialized offset gives it back with every element canonical if and only if it is not blank and its lengths fit |
| `OffsetFormat.TokenPreservesIff` | services/telegram-service/util/OffsetSerialization.go:140-189 | an offset comes back exactly as it is if and only if it is not blank, its lengths fit, and each element is spelled canonically |
| `OffsetFormat.CanonicalIffSpelled` | services/telegram-service/util/OffsetSerialization.go:97-139 | an element keeps its spelling if and only if it is a lower-case hyphenated UUID, a 32-bit number without leading zeros, or neither UUID nor 32-bit number |
| `OffsetFormat.TokensAreFaithful` | services/telegram-service/util/OffsetSerialization.go:140-189 | re-serializing what was parsed gives the identical token; two tokens are equal exactly for equal canonical offsets |
| `OffsetFormat.CanonicalOffsetSameToken` | services/telegram-service/util/OffsetSerialization.go:109-139 | canonicalising changes no token, and twice is once, for offsets of any length |
| `OffsetFormat.ListReadsBack` | services/telegram-service/util/OffsetSerialization.go:84-139 | a written list of fitting elements reads back canonical, with whatever follows it untouched |
| `OffsetFormat.ListReadsBackOnlyIfFit` | services/telegram-service/util/OffsetSerialization.go:21-28 | a list that reads back canonical had no text beyond the 16-bit length |
| `OffsetFormat.ClassifyUndoesRender` | services/telegram-service/util/OffsetSerialization.go:97-139 | an element's text is classified as that very element again |
| `OffsetFormat.LeadingZerosAreLost` | services/telegram-service/util/OffsetSerialization.go:124-131 | "007" comes back as "7" |
| `OffsetFormat.LayoutExample` | services/telegram-service/util/OffsetSerialization.go:109-188 | the bytes of an offset with a number, a UUID and a text, one by one |
| `Base64.RoundTrip` | services/telegram-service/util/OffsetSerialization.go:144-188 | standard padded base64 (section 4 of RFC 4648) decodes what it encodes, for every byte string |
| `UuidText.ParseUndoesFormat` | services/telegram-service/util/OffsetSerialization.go:97-121 | the lower-case hyphenated text of a UUID (section 4 of RFC 9562) parses to that UUID |
| `UuidText.FormatUndoesParse` | services/telegram-service/util/OffsetSerialization.go:97-121 | a text of lower-case digits with hyphens in place parses to the UUID that is written so |
| `UuidText.CapitalsReadTheSame` | services/telegram-service/util/OffsetSerialization.go:109-120 | a hyphenated UUID in capitals reads as the one written in lower case |
| `UuidText.CompactReadsTheSame` | services/telegram-service/util/OffsetSerialization.go:109-120 | thirty-two digits without hyphens read as the UUID written with the same digits |
| `DecimalText.Uint32RoundTrip` | services/telegram-service/util/OffsetSerialization.go:103-131 | the decimal text of a 32-bit number parses to that number |
| `DecimalText.NumberTextIsWritten` | services/telegram-service/util/OffsetSerialization.go:103-131 | a text is what a number is written as if and only if it has no leading zeros and denotes that number |
| `Paging.Query` | services/storage-service/storage/MetadataStorageService.go:187-203 | a query answers a page: the hits strictly after the cursor, sorted, ties in any order, cut at the page size |
| `Paging.StayingIsVisitedOnce` | services/storage-service/storage/MetadataStorageService.go:42-85 | whatever else changes between pages, a document that stays, alone with its sort value, is handed out exactly once |
| `Paging.WalkIsComplete` | services/storage-service/storage/MetadataStorageService.go:36-60 | an undisturbed walk hands out everything once if and only if no page boundary cuts a tie |
| `PagingLimits.TieIsLost` | services/storage-service/storage/MetadataStorageService.go:36-60 | for every page size: an undisturbed walk that misses a document, created when the one before it was |
| `Paging.WalkLength` | services/storage-service/storage/MetadataStorageService.go:42-85 | without cut ties the number of fetches is the number of full pages plus one |
| `Paging.WalkYieldsListing` | services/storage-service/storage/MetadataStorageService.go:205-236 | with distinct sort values the walk is the sorted listing, for any page size of at least 1 |
| `SearchChain.Search` | services/storage-service/service/SearchService.go:27-90 | the loop answers what the chain means: skip to the named searcher, resume it, fall through empty answers to searchers that start anew; it answers an error exactly when the request gets to a searcher that fails |
| `SearchChain.AskStage` | services/storage-service/service/SearchPipeline00IdSearcher.go:19-40 | a searcher without a cursor answers only an unresumed request; the others answer a page and the cursor of its last hit |
| `Sessions.SessionYieldsListing` | services/storage-service/service/SearchService.go:35-89 | following cursors through any sound chain, as they are or as tokens, lists exactly what the chain has to offer, for any page size |
| `Sessions.UnfinishedSessionIsPrefix` | services/storage-service/service/SearchService.go:71-83 | an unfinished session has shown the beginning of the listing and made no more requests than that shows documents, so every session ends |
| `Sessions.AnswerIsNextPiece` | services/storage-service/service/SearchService.go:45-84 | one answer is the next piece of the listing, and its cursor stands for the rest |
| `Sessions.CursorComesBack` | services/telegram-service/service/InlineHandlerService.go:95-108 | a cursor handed back through a token names the same searcher and the same place |
| `TelegramListing.SearchSessionListsExpected` | services/storage-service/service/SearchService.go:35-89 | for every query the registered searchers list the named document alone, else the matches by relevance, else the whole account |
| `TelegramListing.SearchSessionEnds` | services/storage-service/service/SearchService.go:35-89 | for every query the number of requests is bounded by the number of documents listed |
| `TelegramListing.InlineSessionEnds` | services/telegram-service/service/QueryProcessor.go:120-123 | for every query, as long as an inline session at rest goes on it has shown full pages of what is expected, in order, so it ends |
| `TelegramListing.InlineSessionListsExpected` | services/telegram-service/service/QueryProcessor.go:99-125 | for every query, an inline session at rest, which ends with the first page that is not full, shows exactly what is expected, in order |
| `TelegramListing.EmptyQuerySessionEnds` | services/telegram-service/service/QueryProcessor.go:120-123 | a session for the empty query ends even if creation times are tied: no more requests go on than there are full pages |
| `TelegramListing.TelegramSessionIsWalk` | services/telegram-service/service/QueryProcessor.go:120-123 | an inline session for the empty query, whose only memory is the client's token, is a keyset walk over the changing index |
| `TelegramListing.StayingIsShownOnce` | services/telegram-service/service/QueryProcessor.go:99-125 | while others come and go, a document that stays, alone with its creation time, is shown exactly once |
| `TelegramListing.SessionShowsAccount` | services/telegram-service/service/QueryProcessor.go:99-125 | at rest, a session shows every document once if and only if no page boundary cuts a tie; with distinct times newest first, in full pages plus one requests |
| `PagingLimits.SessionLosesTie` | services/telegram-service/service/QueryProcessor.go:99-125 | for every page size: an inline session at rest, tokens included, that never shows one of the account's documents |
| `TelegramListing.DecimalKeysTravel` | services/storage-service/storage/MetadataStorageService.go:52-57 | any int64 creation time written as decimal text survives the token, which stays within Telegram's 64 bytes |
| `SortValueText.FloatKeysTravel` | services/storage-service/storage/MetadataStorageService.go:52-57 | any creation time up to 2^53 decoded to floating point and printed, with an exponent from any number of digits on, comes back unchanged from its token, which stays within 64 bytes |
| `SortValueText.ScoreCursorTravels` | services/storage-service/storage/MetadataStorageService.go:37 | a cursor of score and image id comes back as it is if and only if the score is spelled canonically and fits |
| `SortValueText.ScoreTokenIsShortIff` | services/telegram-service/util/OffsetSerialization.go:168-189 | its token stays within 64 bytes if and only if the score is a small number or a text of ten characters at most |
| `LibraryRuns.RunKeepsHashUnique` | services/storage-service/service/MemeCrudService.go:73-125 | over every run of creates, updates, deletes and recomputes, duplicate removal included, without a recompute that repeats a hash, no two documents of an account share one |
| `LibraryRuns.StepKeepsHashUnique` | services/storage-service/service/RecomputeService.go:236-267 | an operation breaks uniqueness if and only if it is a recompute that rewrites its document with a hash of another one that stays |
| `LibraryRuns.RunKeepsTexts` | services/storage-service/service/PipelineSaveService.go:34-41 | over every run of all operations each document's flat search text is its three structured texts joined by blanks |
| `LibraryRuns.RunKeepsMedia` | services/storage-service/service/PipelineSaveService.go:43-78 | over every run of all operations in which no delete stops half way and no duplicate removal drops its own media, every document has its original and its thumbnail |
| `LibraryRuns.StepKeepsMedia` | services/storage-service/service/RecomputeService.go:247-267 | an operation leaves a document without a medium if and only if it is a delete that got one medium but did not finish, or a recompute that deletes media with a duplicate and does not store them again |
| `LibraryLimits.HalfWayDeleteTearsMedia` | services/storage-service/service/MemeCrudService.go:266-270 | a run from the empty library, a create and a delete that stops half way, that ends with a document lacking a medium |
| `LibraryRuns.CreateOutcome` | services/storage-service/service/MemeCrudService.go:73-125 | a create adds one complete document exactly when its bytes are neither known by hash nor similar, every call goes well and everything is stored; it has the texts, slice texts, embeddings and sizes the pipeline made and each medium under its own key; known or similar bytes change neither store; it succeeds exactly when, besides, the urls are made, and answers the new document or the duplicate |
| `LibraryRuns.SimilarIsAnswered` | services/storage-service/service/EP40ImgCheckDuplicateByEmbedding.go:29-67 | new bytes, image or video, that resemble a document of the account change nothing and answer that document |
| `PipelineMeaning.CreatePipeline` | services/storage-service/service/MetadataExtractService.go:21-42 | the step loop of a create ends with a duplicate exactly when the bytes are known or resemble a document of the account, and then with which; otherwise with exactly what the calls made if all go well |
| `PipelineMeaning.RecomputePipeline` | services/storage-service/service/RecomputeService.go:215-245 | the step loop of a recompute goes through exactly when every call its options ask for goes well, and hands on what these made, the old embeddings where none are asked for, and the duplicate: a similar document or else one with the same hash, except for a video for which a document is named that is not there |
| `LibraryRuns.NonEmptySplits` | services/storage-service/service/PipelineSaveService.go:65-72 | saved embeddings are those with data, in their order |
| `LibraryRuns.FailedCreateLeavesIndex` | services/storage-service/service/MemeCrudService.go:109-119 | a failed create left the index unchanged unless every store call succeeded and only the urls failed, and then it did not |
| `LibraryLimits.FailedCreateCanAdd` | services/storage-service/service/MemeCrudService.go:109-119 | a create from the empty library that reports an error and whose document is there |
| `LibraryRuns.RecreateFindsOriginal` | services/storage-service/service/EP10CheckDuplicateByHash.go:20-38 | creating bytes the account already has changes nothing and answers that very document, or an error exactly when the bytes cannot be read, the hash not looked up or the urls not made |
| `LibraryRuns.RecreateAfterRun` | services/storage-service/service/MemeCrudService.go:73-97 | the same after any operations that let the document live and do not recompute it |
| `LibraryRuns.UpdateOutcome` | services/storage-service/service/MemeCrudService.go:144-221 | an update rewrites its document exactly when lookup, the encodings and saves asked for and the document's save go through, and succeeds exactly when, besides, the urls are made; the rewritten document is the answer: given texts and media, everything else as it was, marked as edited, texts still in agreement |
| `LibraryRuns.DeleteOutcome` | services/storage-service/service/MemeCrudService.go:257-277 | a delete succeeds exactly when the account has the document and lookup and all three deletions go through; the document is removed exactly then, with both its media; no other document and no other account's media ever |
| `LibraryRuns.RecomputeOutcome` | services/storage-service/service/RecomputeService.go:193-268 | a recompute, duplicate branch included, succeeds exactly when it passes over an edited document or original, pipeline, deletes and selected saves go well; in the second case, and only then, it rewrites its document: every selected group is what the pipeline made, every other as it was, plus hash, edited flag and timestamp; of the others it removes the duplicate at most; its own media stay exactly if not deleted or stored again |
| `LibraryRuns.RecomputeKeepsHashUnique` | services/storage-service/service/RecomputeService.go:260-267 | a recompute keeps hashes unique if and only if no other document of the account that stays has the stored original's hash |
| `LibraryLimits.RecomputeCanRepeatHash` | services/storage-service/service/RecomputeService.go:260-267 | a run from the empty library, two creates and a recompute, that ends with two documents of one hash |
| `LibraryRuns.DuplicateBranchDropsOwnMedia` | services/storage-service/service/RecomputeService.go:247-258 | after the duplicate branch the surviving document has media if and only if they were stored again, and the duplicate's media are left without a document |
| `LibraryLimits.DuplicateRemovalDropsMedia` | services/storage-service/service/RecomputeService.go:247-258 | a run from the empty library, two creates and a recompute that succeeds, that removes the other document and ends with one that has no media |
| `LibraryState.HighestId` | services/storage-service/storage/MetadataStorageService.go:373-411 | the duplicate by hash is the hit with the highest image id |
| `Library.Library.CreateMeme` | services/storage-service/service/MemeCrudService.go:73-125 | both stores and the answer end up as the create function says, at every failure point |
| `Library.Library.UpdateMeme` | services/storage-service/service/MemeCrudService.go:144-221 | the same for update |
| `Library.Library.DeleteMeme` | services/storage-service/service/MemeCrudService.go:257-277 | the same for delete: both media are tried before either error counts |
| `Library.Library.RecomputeOne` | services/storage-service/service/RecomputeService.go:193-268 | the same for recompute, duplicate branch included |
| `Library.Library.ExtractMetadata` | services/storage-service/service/MetadataExtractService.go:21-42 | the step loop is the pipeline function: skipped steps, first error, final context |
| `Library.Library.DuplicateByHash` | services/storage-service/storage/MetadataStorageService.go:373-431 | a page of one, sorted by descending image id, holds the duplicate with the highest id if there is any |
| `Library.Library.SavePipeline` | services/storage-service/service/PipelineSaveService.go:29-79 | selected parts are written, media first, the document last, up to the first failure |
| `Library.Library.DeleteAll` | services/storage-service/service/MemeCrudService.go:279-315 | deleting behind the cursor disturbs no later page; what is gone is exactly what the walk handed out, except failed deletes; an error is answered exactly when a query fails |
| `Library.DeleteAllEmptiesAccount` | services/storage-service/service/MemeCrudService.go:279-315 | when deletes succeed the account is empty afterwards if and only if no page boundary cuts a tie; other accounts keep everything |
| `PagingLimits.DeleteAllLeavesTie` | services/storage-service/service/MemeCrudService.go:279-315 | an account of 101 documents created at once of which deleting page by page leaves one |
| `Library.Library.Export` | services/storage-service/service/ExportService.go:58-100 | everything handed over is a document of the library, of the account asked for, with its own media; a successful export hands over exactly its walk; it ends with an error only if a query or the callback fails or a document to export lacks a readable medium |
| `Library.ExportAllIsComplete` | services/storage-service/service/ExportService.go:66-97 | a successful export of all accounts hands over every document of the index once, by ascending image id |
| `Library.ExportAccountIsComplete` | services/storage-service/service/ExportService.go:66-97 | a successful export of one account hands over documents of that account only, none twice; all of them if and only if no page boundary cuts a tie; with distinct creation times the newest first |
| `HandleRace.OneTransferOnePath` | services/common/temp/S3WrappedData.go:108-148 | any number of concurrent callers make at most one upload or download; all get the same path; local handles never download, path handles never upload |
| `HandleRace.AnswerIffThere` | services/common/temp/S3WrappedData.go:108-148 | a caller that has returned has an answer exactly if the path, or the data, it asked for is there, and that path |
| `HandleRace.TransferBrings` | services/common/temp/S3WrappedData.go:108-148 | the one transfer brings the new object's path, or the data, exactly if it arrives |
| `HandleRace.FailureIsFinal` | services/common/temp/S3WrappedData.go:113-146 | over whole runs: after a failed transfer nothing is transferred any more and no caller that needs what is missing ever succeeds |
| `HandleRace.NoDeadlock` | services/common/temp/S3WrappedData.go:110-134 | a waiting caller can move, or the holder of the mutex can |
| `HandleRace.EveryRaceEnds` | services/common/temp/S3WrappedData.go:108-148 | every race of n callers ends after at most 4n steps with each of them returned, or run into the missing function |
| `HandleRace.EmptyPathPanics` | services/common/temp/S3WrappedData.go:129-139 | over a handle made for an empty path, every caller that wants the path can be the one to reach the function that was never set |
| `HandleRace.PanicsIff` | services/common/temp/S3WrappedData.go:110-148 | some schedule reaches a missing function if and only if the handle was made for an empty path and some caller wants the path |
| `TempObjects.Handle.GetS3Path` | services/common/temp/S3WrappedData.go:70-76 | the path, uploading on first use; the new state in every case |
| `TempObjects.Handle.Reader` | services/common/temp/S3WrappedData.go:53-60 | the bytes, downloading on first use; the new state in every case |
| `TempObjects.Handle.Close` | services/common/temp/S3WrappedData.go:86-106 | an owned object is deleted and the data closed, once however often close is called |
| `TempObjects.CloseAll` | services/common/helper/util.go:22-29 | every handle of the list is closed once however often it occurs; the books of all others stay in order |
| `TempObjects.PipelineContext.Close` | services/storage-service/service/ImageExtractPipelineStep.go:88-98 | every distinct handle, though held under two names, is closed and its object deleted exactly once |
| `TempObjects.PipelineContext.SliceVideo` | services/storage-service/service/EP22VidSlice.go:27-54 | slices are numbered and wrapped in order with their own times; on a failure the rest is closed and the earlier ones are held |
| `TempObjects.Extract` | services/storage-service/service/MetadataExtractService.go:35-41 | whichever step fails, everything made so far is closed exactly once; after success everything is open |
| `FfmpegActions.Deliver` | services/ffmpeg-service/service/FfmpegJobService.go:102-112 | one output is wrapped and uploaded, or nothing of it stays open |
| `FfmpegActions.DeliverSlices` | services/ffmpeg-service/service/FfmpegJobService.go:142-168 | all slices are delivered with their own times and paths, or every slice's data is closed once, whichever failed |
| `FfmpegActions.Abandon` | services/ffmpeg-service/service/FfmpegJobService.go:152-159 | the failure path closes later data and deletes the earlier slices' objects, each once |
| `FfmpegActions.RunAction` | services/ffmpeg-service/service/FfmpegJobService.go:85-173 | success exactly when ffmpeg and every delivery succeed; a failed action leaves nothing open; the input object is never deleted |
| `FfmpegJobs.RecordsAreConsistent` | services/ffmpeg-service/service/FfmpegJobService.go:33-63 | in every run: running jobs within the semaphore; outside its mutex a job has a result exactly when done, an error exactly when failed |
| `FfmpegJobs.OutputsAreAccountedFor` | services/ffmpeg-service/service/FfmpegJobService.go:131-190 | in every run, for every single output, whichever piece failed: closed at most once; none open once the job has failed; of a done job closed only by its clean-up, not before the retention time, never if that is unlimited; each exactly once when the clean-up has finished |
| `FfmpegJobs.RetentionIsKept` | services/ffmpeg-service/service/FfmpegJobService.go:175-203 | for a job asked to keep its outputs for r seconds: no output of the done job is closed before r seconds have passed since it was done, the default for r = 0, and none ever for a negative r |
| `FfmpegJobs.CleanUpIsScheduled` | services/ffmpeg-service/service/FfmpegJobService.go:175-186 | the clean-up of such a job is scheduled for exactly that time, or not at all |
| `FfmpegJobs.OutcomeIsTheActions` | services/ffmpeg-service/service/FfmpegJobService.go:33-63 | a done job has had no failure and holds one output for each piece ffmpeg produced; a failed one has had a failure |
| `FfmpegJobs.CleanUpGoesOn` | services/ffmpeg-service/service/FfmpegJobService.go:175-190 | a done job that may expire has a clean-up; once due it can always go on, and each of its steps brings it one closer to its end |
| `FfmpegJobs.OutcomesAreFinal` | services/ffmpeg-service/service/FfmpegJobService.go:54-63 | no step closes an output a second time, and done and failed are final |
| `FfmpegClient.PollJob` | services/storage-service/service/ffmpeg/FfmpegServiceClient.go:74-104 | polling ends, whatever is replied and for every interval and deadline, with the first round that has a reason to, within the bound |
| `FfmpegClient.PollingEnds` | services/storage-service/service/ffmpeg/FfmpegServiceClient.go:80-103 | for every service, interval and deadline there is exactly one ending, after at most (maxWait - 1) / (interval + 1) + 2 rounds, also if the interval is zero |
| `FfmpegClient.BoundIsReached` | services/storage-service/service/ffmpeg/FfmpegServiceClient.go:94-102 | that number of rounds is exact: for every interval and deadline some service is asked that often and then given up |
| `FfmpegClient.EndingsAreReplies` | services/storage-service/service/ffmpeg/FfmpegServiceClient.go:82-102 | each ending means one state of reply, clock and context |
| `FfmpegClient.TimeoutMeansUnfinished` | services/storage-service/service/ffmpeg/FfmpegServiceClient.go:88-99 | a timeout is reported only if no reply up to the deadline showed an end |
| `FfmpegClient.ResolveInput` | services/storage-service/service/ffmpeg/FfmpegServiceClient.go:121-145 | a stored video's path is reused and not owned; local data becomes a fresh object that is |
| `FfmpegClient.Run` | services/storage-service/service/ffmpeg/FfmpegServiceClient.go:46-70 | a result is returned exactly when the input is an object, the job is taken, and some reply says done while all before it came in time, unfinished and not cancelled; however it ends, the object made for the job is deleted exactly once and a caller's handle is neither closed nor deleted |
| `YoutubeJobs.ObjectsAreAccountedFor` | services/youtube-service/service/VideoJobService.go:54-156 | in every run each object is closed at most once, by the cleaner never before its time and never for unlimited retention, and is held by a job in the table, or closed, or an orphan whose job finished late |
| `YoutubeJobs.OrphansAreTheSweptJobs` | services/youtube-service/service/VideoJobService.go:137-151 | a succeeded job outside the table is an orphan if and only if the cleaner came by, and found no result, before |
| `YoutubeJobs.OrphansStay` | services/youtube-service/service/VideoJobService.go:131-153 | no later step closes an orphan or brings its job back |
| `YoutubeJobs.ExpiredResultIsClosed` | services/youtube-service/service/VideoJobService.go:133-151 | whatever others do meanwhile: once the cleaner has decided that a finished job is expired, then whenever it is done with it the object is closed, exactly once, and the job out of the table |
| `YoutubeJobs.RetentionIsKept` | services/youtube-service/service/VideoJobService.go:131-163 | for a job asked to keep its object for r seconds: the cleaner closes it only more than r seconds after the job was created, after the default for r = 0, and never for a negative r, when the job also stays in the table |
| `YoutubeJobs.PassRemovesExpired` | services/youtube-service/service/VideoJobService.go:129-163 | a pass that ends has taken every job out of the table whose time, in seconds asked for or the default, was up when the pass began |
| `YoutubeJobs.SlowJobLeavesOrphan` | services/youtube-service/service/VideoJobService.go:54-151 | a concrete run that leaves an orphan |
| `YoutubeJobs.DownloadsAreBounded` | services/youtube-service/service/VideoJobService.go:64-66 | downloads at work never exceed the semaphore |
| `Migrations.ElasticMigrator.Migrate` | services/storage-service/storage/elastic_migrator.go:81-117 | log, record and outcome end up as the run function says, for every failure or crash point |
| `Migrations.ElasticMigrator.ApplyEntry` | services/storage-service/storage/elastic_migrator.go:119-169 | executed first, recorded second, stopped anywhere |
| `Migrations.RunKeepsProgress` | services/storage-service/storage/elastic_migrator.go:81-117 | one start executes exactly the migrations behind the recorded name, in order, and leaves at most its last one unrecorded |
| `Migrations.HistoryKeepsProgress` | services/storage-service/storage/elastic_migrator.go:81-168 | after any number of starts the log never goes back in name order, holds everything up to the recorded name, at most its successor beyond, and one repetition per lost record |
| `Migrations.SecondRunIsIdle` | services/storage-service/storage/elastic_migrator.go:101-108 | a start after a successful one executes nothing and succeeds |
| `Migrations.SuccessAppliesDirectoryIff` | services/storage-service/storage/elastic_migrator.go:101-116 | for any directory and state: after a successful start every file was executed if and only if those up to the recorded name had been before |
| `Migrations.SuccessIff` | services/storage-service/storage/elastic_migrator.go:81-117 | a start succeeds if and only if the record can be read and every migration beyond the recorded name goes through |
| `Migrations.LateFileIsSkipped` | services/storage-service/storage/elastic_migrator.go:106-108 | a later release's file named before the recorded one is never executed, though every start succeeds |
| `Migrations.ExactlyOnceIffNothingLost` | services/storage-service/storage/elastic_migrator.go:160-162 | every migration was executed exactly once if and only if no record was lost |
| `VideoSlicer.SliceVideoWithOverlap` | services/ffmpeg-service/ffmpeg/VideoSlicer.go:76-123 | the loop yields exactly the segments of the closed form, each with data of its own; on a failure the earlier data is closed |
| `VideoSlicer.CountIsExact` | services/ffmpeg-service/ffmpeg/VideoSlicer.go:78-86 | segment i is kept if and only if i is below the closed-form count |
| `VideoSlicer.SecondsAreWhole` | services/ffmpeg-service/ffmpeg/VideoSlicer.go:76-123 | the times of a slice are the whole seconds before its cuts |
| `VideoSlicer.SegmentsTileVideo` | services/ffmpeg-service/ffmpeg/VideoSlicer.go:76-86 | starts at multiples of the step, full lengths but for the last, overlaps exact, the last ends with the video |
| `VideoSlicer.CoverageIffOverlapNotNegative` | services/ffmpeg-service/ffmpeg/VideoSlicer.go:37-39 | the segments cover the video if and only if the overlap is not negative or one segment is enough |
| `SliceMerge.ExtractSlices` | services/storage-service/service/EP52VidLlmExtract.go:43-118 | for every order in which workers finish, and every unstable sort, the result is that of the slices in order |
| `SliceMerge.OutcomeKeepsSlices` | services/storage-service/service/EP52VidLlmExtract.go:103-118 | the result is combined of the texts in slice order, or is the one slice's own; it is there exactly if there are slices and their texts can be combined; each slice is reported once, in order, with its own times and texts |
| `SliceMerge.CheckDuplicate` | services/storage-service/service/EP40VidCheckDuplicateByEmbedding.go:24-69 | an error exactly as the first failing query or the lookup says; otherwise a duplicate is declared exactly when some document reaches the threshold share |
| `SliceMerge.ElectedIff` | services/storage-service/service/EP40VidCheckDuplicateByEmbedding.go:53-64 | a document is elected exactly if it is close to some embedding and to at least the threshold share of all |
| `SliceMerge.VoteIgnoresOrder` | services/storage-service/service/EP40VidCheckDuplicateByEmbedding.go:30-66 | votes and verdict depend on the embeddings only as a multiset |
| `PipelineOrder.Extract` | services/storage-service/service/MetadataExtractService.go:26-41 | the loop over the sorted steps is a run of the steps for the media type |
| `PipelineOrder.RunIsTrace` | services/storage-service/service/MetadataExtractService.go:26-41 | a run is its trace: steps that are not allowed leave the context alone, any other makes the next one, and the first failure ends it |
| `PipelineOrder.OrderDeterminedIffDistinct` | services/storage-service/service/MetadataExtractService.go:44-47 | every registration order and every unstable sort execute the same steps if and only if no two steps for the media type share a position |
| `PipelineOrder.SameContext` | services/storage-service/service/MetadataExtractService.go:21-52 | with distinct positions the final context, too, is the same |
| `RegisteredSteps.RegisteredOrderIsDetermined` | services/storage-service/service/EP40VidCheckDuplicateByEmbedding.go:71-80 | the registered steps, some of which share positions, still have one order for each media type |
| `RegisteredSteps.EverySortRunsTheSteps` | services/storage-service/service/MetadataExtractService.go:26-47 | every sort of the registered steps executes, for each media type, the steps of the library's pipeline in their order |
| `MemeGrid.BuildRows` | services/webapp-service/frontend/src/components/MemeGrid.tsx:20-62 | for any memes and any container the loop yields a layout: each full row is unable to take the next item, and exactly as wide as the container, scaled by at least 1, the last width within half a pixel per other item, unless all its items are without width; a natural last row |
| `MemeGrid.StretchRow` | services/webapp-service/frontend/src/components/MemeGrid.tsx:40-44 | rounding every width but the last, which takes what remains, fills the row exactly |
| `MemeGrid.LayoutShowsEachOnce` | services/webapp-service/frontend/src/components/MemeGrid.tsx:50-59 | every meme appears once, in order, under its own index |
| `MemeGrid.GreedyNeedsFewestRows` | services/webapp-service/frontend/src/components/MemeGrid.tsx:51-58 | no way to break the memes into rows that fit needs fewer rows |
| `MemeGrid.GreedyIsUnique` | services/webapp-service/frontend/src/components/MemeGrid.tsx:51-58 | fitting and greediness leave exactly one way to break the memes into rows |
| `MemeGrid.LayoutHasFewestRows` | services/webapp-service/frontend/src/components/MemeGrid.tsx:20-62 | the layout shown uses the fewest rows possible |
| `MemeGrid.WideRowsHoldThree` | services/webapp-service/frontend/src/components/MemeGrid.tsx:21-23 | from 768 pixels on, every row but the last holds at least three memes |
| `MemeGrid.NaturalWidth` | services/webapp-service/frontend/src/components/MemeGrid.tsx:21-24 | the natural width is thumbnail width over height times row height to the nearest pixel, at most the container's share |
| `MemeGrid.WidthIsPositiveIff` | services/webapp-service/frontend/src/components/MemeGrid.tsx:24 | exactly which memes get a positive width |
| `MemeGrid.CollapsesIff` | services/webapp-service/frontend/src/components/MemeGrid.tsx:35-38 | a row divides by zero if and only if none of its items has a positive width |
| `MemeGrid.RowIsFiniteIff` | services/webapp-service/frontend/src/components/MemeGrid.tsx:20-62 | in every layout a row has finite sizes if and only if it is the last or holds a meme with a positive width |
| `MemeGrid.NarrowRowIsNotFinite` | services/webapp-service/frontend/src/components/MemeGrid.tsx:24-44 | a layout of two memes in three pixels whose first row has no finite height |
| `QueryTags.Process` | services/telegram-service/service/QueryProcessor.go:99-110 | the search text holds no type tag, in capitals or not; it is the tag-free pieces of the query joined by blanks; the type is Image or Video as the first tag spells it; a query without tags is only trimmed |
| `QueryTags.TagAtIsSpelling` | services/telegram-service/service/QueryProcessor.go:17 | a tag of a kind is seen exactly where the eleven characters spell it, in small letters or capitals |
| `QueryTags.TrimIsExact` | services/telegram-service/service/QueryProcessor.go:100 | trimming takes all white space off both ends and nothing else |
| `QueryTags.FindIsExact` | services/telegram-service/service/QueryProcessor.go:17 | the pattern's match is the first one, with all the white space around it |
| `QueryTags.NoTagLeft` | services/telegram-service/service/QueryProcessor.go:106 | no tag survives the replacement, not even one put together from what stood around others |
| `QueryTags.ProcessedIsFixed` | services/telegram-service/service/QueryProcessor.go:99-107 | processing a processed query changes nothing |

## Left out

- The search index itself: matching, relevance scores and nearest-neighbour queries are parameters; a relevance order is a fixed ranking of the documents, and a query sees one state of the index.
- How the index client renders sort values: cursors carry them as any text that reads back; decimal int64 text, and floating-point text of integers up to 2^53, are proved to travel. Larger integers, which floating point rounds, and how scores are rounded are not modelled.
- An empty but present sort key counts as no sort key, as it does after the request between the services.
- A store call that fails is taken to have had no effect; operations on the library run one after the other. Concurrent edits during a recompute job are not modelled, except that the index may change in any way between pages of a walk.
- RecomputeRuns.Conservation: the raw query is taken to sort by image id over documents with distinct ids; waiting for a job and the total of a job are not part of this model.
- HandleRace.OneTransferOnePath: memory is sequentially consistent, and no caller uses a handle during or after its close; `TempObjects.Handle` covers use by one goroutine, close included.
- TempObjects.Extract: handles that an encoder makes and drops before it returns them to the pipeline are not part of this model.
- FfmpegClient.PollJob: the clock moves on by at least one unit during every call; polls and clock are otherwise arbitrary.
- FfmpegJobs.OutputsAreAccountedFor: eviction from the job cache is not modelled; clean-up does not depend on it. A piece that cannot be wrapped or uploaded has no object; what becomes of its local data is stated by `FfmpegActions.DeliverSlices`.
- YoutubeJobs.ObjectsAreAccountedFor: synchronous downloads, which sleep and close on their own, and a retention default of zero, for which no ticker can be made, are not part of this model.
- Retention: durations are unbounded integers; overflow of int64 nanoseconds is not modelled.
- VideoSlicer.SliceVideoWithOverlap: durations are unbounded integers, and seconds are truncated exactly, not by way of floating point.
- MemeGrid.BuildRows: lengths are real numbers, not floating point; infinite and undefined lengths are not told apart.
- SliceMerge.CheckDuplicate: the matches of one embedding are a set of documents; the cosine threshold and the limit of thirty hits decide it outside the model. Shares are compared as real numbers.
- QueryTags.Process: texts are sequences of characters; invalid UTF-8 is not modelled.
- UUID texts follow the parser of the google/uuid library the services use, which is not part of the repository.
- Image and video encoding, thumbnails, embeddings, prompts, media types, presigned urls.
- Export of a single document, random memes, messages, commands and rights of the telegram bot, accounts, permissions, tokens and sessions of the web application.
- RPC handlers, generated code, configuration, wiring, logging, deployment, and the rest of the frontend.
