# FastRAG model

A model of the stateful algorithms of FastRAG, a retrieval-augmented answering service, and proofs of
what they guarantee. The parts are these.

- **Citations** (`MarkerText`, `SentenceSplitter`, `Citations`, `CitationRuns`, `CitationAnswers`,
  `CitationMeaning`, `CitationBuffer`). The buffer between a streaming model and its reader: three marker
  spellings, sentence splitting, back-filling, stable numbers. Text is characters, not tokens: the three
  regular expressions and the splitter are modelled as scanners, and that a marker survives the splitter is
  proved.
- **Indexing** (`IndexRegistry`, `IndexLifecycle`, `IndexAlias`, `IndexActive`, `IndexBuilder`,
  `IndexProgress`). The manifest table, the vector store and the alias as shared state; builders as actors
  that may fail before, during or after every call.
- **Providers** (`Harness`, `Streaming`). Retry, breaker and deadline over exact time, and streams with
  retries and a fallback provider.
- **Calibration** (`Ordering`, `Calibration`). The threshold searches, optimal over all reals.
- **Packing** (`Batching`, `Translation`, `Chunking`, `GoldenBalance`). Translation batches, sentence, window and
  semantic chunks, and the balanced evaluation set.
- **Queries** (`Crag`, `AnswerCache`, `QueryPipeline`, `CacheHistory`). One query from guard to final
  event, and histories of many queries sharing one cache.
- **Website** (`SseClient`). The event stream reader.

Where the original updates an object or runs a loop, the model has a class or a method with the same
loop, proved against functions on values; the theorems are about those functions. Databases, model calls,
clocks and networks are inputs: oracles that may answer anything the source allows, or fail.

`dafny verify dfyconfig.toml` covers all of it.

## What the proofs say about the code

Some guarantees hold only under a condition, and the condition is proved exact.

- Feed can discard complete sentences. It does so if and only if no default chunk exists, the text so far
  has markers, and every one is loosely spaced with an id that ends in a full stop
  (`CitationRuns.FeedDropsExactly`). Ids the service makes never end so, but a model may write one.
- After a half-opening the breaker admits every caller until a failure is recorded
  (`Harness.HalfOpenExactly`), though the comment at src/fastrag/harness.py:99-103 speaks of one probe.
- After an activation some row need not stay active. It does if and only if no later call takes the active
  row down without another activation after that (`IndexActive.ActiveExactly`). A failed promotion of the
  centroid does so when marking the row failed takes effect (`IndexLifecycle.PromotionFailureExact`), and
  two things do without any failure: building the active version again
  (`IndexActive.RebuildDownsActive`), and activating a version while its own builder is about to
  (`IndexActive.RefusedBuilderDownsActive`).
- Alias and active row are moved by separate calls. They agree in the end if and only if the actor that
  flipped the alias last is the one that committed last (`IndexAlias.AliasExactly`). A failed activation
  after a flip breaks that (`IndexAlias.AliasRunsAhead`), and so do two activations that overlap without
  any failure (`IndexAlias.FaultFreeSplit`).
- Versions share a collection if and only if they differ only in characters written as a hyphen
  (`IndexLifecycle.NameClashExactly`), and a rebuild of one then empties the other while it is active
  (`IndexLifecycle.SharedNameEmptiesActive`).
- The passage that heads the refined ranking clears the gate if and only if the first candidate
  that kept a strip does (`Crag.RefinedTopExactly`); it need not (`Crag.RefinementCanLowerTheTop`).
- A reader can see cited sentences followed by the no-answer text. With sentences sent, that happens if and
  only if nothing failed, there is no default chunk, and the text left at the end is not blank and holds no
  marker but torn ones (`QueryPipeline.UnansweredText`, `QueryPipeline.SentencesThenNoAnswer`).
- The event reader normalises per read. The frames are those of the whole text if and only if no CR LF
  pair is cut in two (`SseClient.FramesRefine`, `SseClient.CutPairSplitsFrame`).
- Word windows can miss words of a text that is not empty: if and only if the size is below one, or the
  text is longer than a window and the overlap negative (`Chunking.WindowsCoverExactly`).
- Thresholds and correction overrides are not part of the cache namespace, and a query that uses them still
  reads and writes the cache unless it also skips it. A replayed answer passed the gate of its author; the
  gate of its reader it passes if and only if a top score of the author clears that
  (`CacheHistory.ReplayedAnswersAreSafe`), which can fail (`CacheHistory.ReplayBelowTheGate`).

## Model

| member | source | states |
|---|---|---|
| `MarkerText.LexSpelled` | src/fastrag/citations.py:10-12 | A marker or bracketed number written into a text is read back as itself, whatever text follows it. |
| `MarkerText.Relex` | src/fastrag/citations.py:106-117 | Replacing bracketed tokens and writing the text out again neither creates nor destroys a token, for every text; so one substitution pass never feeds on the output of another. |
| `MarkerText.LexAppend` | src/fastrag/citations.py:126 | Appending a space and a marker never merges with the text before it. |
| `MarkerText.RecognisedExactly` | src/fastrag/citations.py:11-12 | After an opening bracket the scanner finds a marker of an id if and only if the text goes on with whitespace, the tag and the id, whitespace and a closing bracket, and a number if and only if it goes on with digits and a closing bracket. |
| `SentenceSplitter.SplitWeaves` | src/fastrag/citations.py:15-17 | The parts of a split, with the whitespace cut out between them put back, are the text. |
| `SentenceSplitter.SplitEdges` | src/fastrag/citations.py:15-17 | Every part but the last ends in a terminator or a closing bracket, and after a cut the last part starts with text. |
| `SentenceSplitter.PartMarkerWasWhole` | src/fastrag/citations.py:15-17 | A marker found in a part stood whole in the text and was not torn. |
| `SentenceSplitter.WholeMarkerKeepsPart` | src/fastrag/citations.py:15-17 | A marker that is not torn lies whole inside one part. |
| `SentenceSplitter.SplitKeepsMarkers` | src/fastrag/citations.py:15-17 | Some part holds a marker if and only if the text holds one that is not torn; torn means a loosely spaced marker whose id ends in a full stop before the space. |
| `SentenceSplitter.ValueShow` | src/fastrag/citations.py:145 | The decimal numeral put into a bracket denotes the number it was made from. |
| `SentenceSplitter.PartsAreWhole` | src/fastrag/citations.py:15-17 | No part of a split can be split again. |
| `SentenceSplitter.CutExactly` | src/fastrag/citations.py:15-17 | Whitespace between two stretches of text is a cut if and only if the first ends in one of the ten terminators or a closing bracket, given by code point, and the second does not open with a bracket. |
| `SentenceSplitter.SplitAt` | src/fastrag/citations.py:15-17 | At such a cut the text splits as its two stretches do. |
| `Citations.NormalizeIsTokenwise` | src/fastrag/citations.py:94-117 | The three substitutions run over each other's output equal one substitution over the tokens of the original text, and the result reads back as exactly those tokens. |
| `Citations.NormalizeIdempotent` | src/fastrag/citations.py:106-117 | Normalising a normalised text changes nothing. |
| `CitationMeaning.NormalizedToken` | src/fastrag/citations.py:94-117 | Normalising rewrites each token on its own: a bracketed number k in 1..n and a marker become a marker of the context they name, the k-th or their id, or the only context there is; every other token stays. |
| `CitationMeaning.NumberNamesContext` | src/fastrag/citations.py:94-104 | A bracketed number k in 1..n is read as a marker of the k-th context, wherever it stands in the text. |
| `CitationMeaning.CitedAreNamed` | src/fastrag/citations.py:141 | The ids found in a normalised text are the contexts its tokens name, in order. |
| `Citations.SearchFindsMarkers` | src/fastrag/citations.py:44 | The marker search on the normalised text succeeds if and only if the raw text holds a marker in some spelling or a bracketed number in 1..n. |
| `Citations.SingleContextIds` | src/fastrag/citations.py:110-116 | With a single context every marker of a normalised text names that context. |
| `Citations.AssignNumbers` | src/fastrag/citations.py:141-144 | Assigning numbers keeps a bijection from supplied ids onto 1..n and only extends it, also when it stops at an unknown id; it stops exactly when some id is not supplied. |
| `Citations.NumbersFit` | src/fastrag/citations.py:144 | There are never more numbers than supplied contexts. |
| `CitationMeaning.AssignInTurn` | src/fastrag/citations.py:141-144 | Ids are numbered in the order in which they are first cited. |
| `Citations.RenderPartsSucceeds` | src/fastrag/citations.py:127-134 | A batch raises for an unknown id exactly when a sentence of it, after back-filling, cites one. |
| `Citations.RenderPartsRenders` | src/fastrag/citations.py:127-134 | A batch that succeeds returns one rendering for each part that is not blank, in order. |
| `Citations.SentenceReadsBack` | src/fastrag/citations.py:126-137 | Back-filling a sentence and normalising it again yields exactly the tokens of the sentence followed by the suffix. |
| `Citations.PartGrounded` | src/fastrag/citations.py:136-145 | A rendered sentence is grounded: it has a marker, every marker is numbered, and a bracketed number of the model that survives lies outside 1..n. |
| `Citations.GroundedStable` | src/fastrag/citations.py:144 | Later numbering leaves earlier sentences grounded. |
| `Citations.GroundedMeans` | src/fastrag/citations.py:136-145 | What a reader of a grounded sentence sees: no raw marker, at least one live citation number, and every bracketed number up to the number of contexts is a live citation. |
| `CitationRuns.BatchGrounded` | src/fastrag/citations.py:119-134 | A batch keeps the numbering a bijection and extends it, also when it raises, and every sentence it returns is grounded. |
| `CitationRuns.BatchRaises` | src/fastrag/citations.py:119-143 | Exactly when a batch raises, and with which of the two errors. |
| `CitationRuns.CallGrounded` | src/fastrag/citations.py:42-88 | One call of feed, finish or salvage, raising or not, keeps the numbering and returns only grounded sentences. |
| `CitationRuns.RunGrounded` | src/fastrag/citations.py:42-145 | Over any sequence of feed, finish and salvage, including calls that raise: the numbers stay a bijection onto 1..n, are only extended, and every sentence returned is grounded under the final numbering. |
| `CitationRuns.StripKeepsMarker` | src/fastrag/citations.py:63 | A text that holds a marker still holds one after stripping. |
| `CitationRuns.SplitPartsNotBlank` | src/fastrag/citations.py:51-53 | No part of a split is blank, so filtering blank parts drops nothing. |
| `CitationRuns.FinishCites` | src/fastrag/citations.py:62-73 | With a default chunk, finishing text that is not blank fails only for a marker that names no context; otherwise it renders every piece. |
| `CitationRuns.SalvageExactly` | src/fastrag/citations.py:75-88 | Salvaging text that is not blank, with at least one context, fails only for a marker that names no context; otherwise it renders every part of the text. |
| `CitationRuns.FeedDropsExactly` | src/fastrag/citations.py:57-59 | Feed discards complete sentences if and only if there is no default chunk and every marker of the text so far is torn by the splitter. With markers the splitter cannot cut, the branch is dead. |
| `CitationRuns.FeedCanDrop` | src/fastrag/citations.py:57-59 | A text with two contexts on which the discard does happen. |
| `CitationRuns.FeedConserves` | src/fastrag/citations.py:42-60 | A feed that does not discard accounts for all text: the buffer and the new piece are what was handed to validation, in order, then the new buffer, up to whitespace at the cuts. |
| `CitationRuns.FinishConserves` | src/fastrag/citations.py:62-73 | Finish hands over the stripped buffer, with the default marker it may append, and nothing else. |
| `CitationRuns.StreamConserves` | src/fastrag/citations.py:42-60 | The same over any number of feeds of arbitrary pieces, raising ones included. |
| `CitationRuns.AnswerConserved` | src/fastrag/citations.py:42-73 | A whole answer fed in arbitrary pieces and finished, with no feed discarding, is exactly what was handed to validation: nothing lost, duplicated or reordered. |
| `CitationMeaning.FeedHands` | src/fastrag/citations.py:42-60 | When feed hands sentences over and which: nothing until its text holds a marker and can be cut; then all but the last, and the last too, stripped, if it names a context. What it keeps names none. It discards exactly when no sentence names any and there is no default chunk. No sentence handed over can be split again. |
| `CitationMeaning.FinishHands` | src/fastrag/citations.py:62-73 | Finish hands over the sentences of the stripped buffer, with a marker of the default chunk behind it if and only if there is one and the buffer names no context. |
| `CitationAnswers.RunRenders` | src/fastrag/citations.py:42-134 | Over any sequence of calls that all return, the sentences of each call are, one for one and in order, the renderings of the pieces it handed over, back-filled from their own batch, under the numbering the whole run ends with. |
| `CitationAnswers.AnswerRendered` | src/fastrag/citations.py:42-134 | A whole answer that raises nowhere and discards nothing: the text, with the closing marker, is the pieces handed over in order, and the sentences returned are their renderings one for one under the final numbering. |
| `CitationMeaning.BackFillIs` | src/fastrag/citations.py:119-126 | A sentence without a citation is filled with what the last sentence of its batch that names a context names, and if none does with the default chunk. |
| `CitationMeaning.PartIsShown` | src/fastrag/citations.py:126-145 | A rendered sentence shows its text token by token: whatever names a context becomes the position of that context in the citation list, everything else is unchanged, and a sentence that names none is followed by its fill. |
| `CitationMeaning.RunShows` | src/fastrag/citations.py:42-145 | The same over any sequence of calls that all return, under the citation list the whole run ends with: so a sentence that cites only [k] shows the number of the k-th context, and that context is in the list at that position. |
| `CitationMeaning.RunInTurn` | src/fastrag/citations.py:42-145 | Over such a run the citation numbers a reader meets come in turn: each is one met before or the next one, and in the end they are as many as the citations. |
| `CitationAnswers.SingleContextFinishes` | src/fastrag/citations.py:62-73 | Over a single context, finishing text that is not blank always returns a sentence. |
| `CitationAnswers.FeedNeverLacks` | src/fastrag/citations.py:57-60 | Feeding never raises for want of a marker. |
| `CitationAnswers.FinishLacks` | src/fastrag/citations.py:62-73 | Finishing raises for want of a marker if and only if there is no default chunk and the text left is not blank and holds no marker but torn ones. |
| `CitationAnswers.SentenceThenNone` | src/fastrag/citations.py:42-73 | Two contexts and a text on which a sentence is returned and finishing then raises for want of a marker. |
| `CitationBuffer.RenderedTrimmed` | src/fastrag/citations.py:145 | The final strip of a rendered sentence changes nothing. |
| `CitationBuffer.SentenceCitationBuffer.constructor` | src/fastrag/citations.py:27-40 | A new buffer is empty, has no numbers, and has a default chunk exactly when there is one context or automatic citing is on. |
| `CitationBuffer.SentenceCitationBuffer.ValidateAndRender` | src/fastrag/citations.py:136-145 | The loop over the markers numbers them in turn, stops at the first unknown one with the numbers so far kept, and otherwise renders. |
| `CitationBuffer.SentenceCitationBuffer.ValidateBatch` | src/fastrag/citations.py:119-134 | The loop over the parts refines the batch specification, in result, in error and in the numbers left behind. |
| `CitationBuffer.SentenceCitationBuffer.Feed` | src/fastrag/citations.py:42-60 | The object after feed, and what it returns or raises, are those of the transition the run theorems are about. |
| `CitationBuffer.SentenceCitationBuffer.Finish` | src/fastrag/citations.py:62-73 | The same for finish. |
| `CitationBuffer.SentenceCitationBuffer.Salvage` | src/fastrag/citations.py:75-88 | The same for salvage, and the saved settings are restored whether or not it raises. |
| `CitationBuffer.SentenceCitationBuffer.CitedChunks` | src/fastrag/citations.py:90-92 | The citation list has, at position i, the supplied chunk numbered i + 1. |
| `IndexRegistry.ActivateExact` | src/fastrag/registry.py:98-109 | Activation succeeds exactly for a validated row; that row is then the only active one, the row that was active is retired, and no other row changes. |
| `IndexRegistry.OthersKeepOneActive` | src/fastrag/registry.py:54-121 | Registering and the other state changes keep at most one row active. |
| `IndexRegistry.PostgresIndexRegistry.RegisterSync` | src/fastrag/registry.py:64-87 | The table after an insert that overwrites the row of the same version. |
| `IndexRegistry.PostgresIndexRegistry.SetStateSync` | src/fastrag/registry.py:114-121 | The table after a state change; it raises for an unknown version and then changes nothing. |
| `IndexRegistry.PostgresIndexRegistry.ActivateSync` | src/fastrag/registry.py:98-109 | Two updates in one transaction: all or nothing. |
| `IndexRegistry.PostgresIndexRegistry.ActiveSnapshot` | src/fastrag/registry.py:180-187 | The content version and collection of the one active row, or nothing exactly when no row is active. |
| `IndexLifecycle.CountMeansDistinct` | src/fastrag/indexing.py:285-288 | A collection holds as many points as there are chunks if and only if the chunk ids are pairwise distinct. |
| `IndexLifecycle.IndexInvariant` | src/fastrag/indexing.py:124-144 | From any table in good order, over every interleaving of builders on distinct versions and collections and every pattern of failures: at most one row is active, and the collection of every validated or active row is exactly the id-to-payload map of its chunks. |
| `IndexLifecycle.ValidationExact` | src/fastrag/indexing.py:285-288 | After a complete upload, validation passes if and only if the chunk ids are pairwise distinct. |
| `IndexLifecycle.CrashSafety` | src/fastrag/indexing.py:124-144 | From any moment of any run until the next registry activation commits, whatever fails and wherever builders of other versions stop, the active row and the collection it names are untouched. |
| `IndexActive.ActiveExactly` | src/fastrag/indexing.py:124-144 | Over every schedule and every pattern of failures: some row is active in the end if and only if the last call that activated a row or took the active one down was an activation, or there was none and one was active at the start. A row is taken down by a builder of its version that starts over or whose handler marks it failed. |
| `IndexActive.RebuildDownsActive` | src/fastrag/indexing.py:109-124 | Building the active version again leaves no row active with its first call, without any failure. |
| `IndexActive.RefusedBuilderDownsActive` | src/fastrag/indexing.py:138-143 | Every call works, and no row is active in the end: a separate activation commits first, the builder of the version is refused, and its handler marks the active row failed. |
| `IndexActive.OtherCommitRestores` | src/fastrag/indexing.py:138-143 | Promotion fails and marking the row failed takes effect, but another commit falls in between and its row stays active. |
| `IndexLifecycle.PromotionFailureExact` | src/fastrag/indexing.py:138-143 | The isolated case: after a committed activation and with nobody else moving, no row is active if and only if the centroid promotion fails and marking the row failed takes effect; otherwise the table is as it was. |
| `IndexAlias.AlignedByCollection` | src/fastrag/indexing.py:138-139 | Over every run and every pattern of failures, with some row active: the alias names its collection if and only if the collection flipped to last is the one committed last, each being the initially active one before any flip or commit. |
| `IndexAlias.AliasExactly` | src/fastrag/indexing.py:138-139 | From a fresh start, with actors on collections of their own: alias and active row agree in the end if and only if the actor that flipped the alias last is the one that committed last, so that no other flip falls between its flip and its commit and none comes after. |
| `IndexAlias.FaultFreeSplit` | src/fastrag/indexing.py:138-139 | Two activations without any failure end with the alias on one collection and the row of the other active. |
| `IndexAlias.AliasRunsAhead` | src/fastrag/indexing.py:138-139 | If the registry activation fails after the alias was moved, the alias names the new collection while the old row stays active. |
| `IndexAlias.MovedAliasIsComplete` | src/fastrag/indexing.py:290-305 | Over every run, an alias that was moved names a collection that is exactly the point map of some row's chunks, provided a separate activation starts from such a collection. |
| `IndexLifecycle.NameClashExactly` | src/fastrag/indexing.py:110-111 | Two versions get the same collection name if and only if they differ, if at all, only where both have neither a letter nor a digit nor an underscore, which is written as a hyphen. |
| `IndexLifecycle.CollectionNamesClash` | src/fastrag/indexing.py:110-111 | Two different versions that get the same collection name. |
| `IndexLifecycle.SharedNameEmptiesActive` | src/fastrag/indexing.py:184-190 | A builder whose collection name clashes with that of the active row empties the active collection in two steps. |
| `IndexBuilder.SoloBuild` | src/fastrag/indexing.py:93-144 | A lone build that returns normally leaves its row active with the alias on its collection, or validated when activation is deferred; the invariant holds wherever it stops. |
| `IndexProgress.EmbeddingFails` | src/fastrag/indexing.py:214-222 | A batch that cannot be embedded is not retried: the build raises, and table, store and alias are unchanged. |
| `IndexProgress.FailureRaises` | src/fastrag/indexing.py:124-143 | Any other call of a build that fails, wherever it fails, ends the build in its handler, with the table as it was. |
| `IndexProgress.RefusalRaises` | src/fastrag/indexing.py:128-143 | So does a row that is gone when its centroid is to be stored, or not validated when it is to be activated. |
| `IndexProgress.BatchSurvives` | src/fastrag/indexing.py:241-263 | After failed upserts of a batch, whether they had applied or not, the batch is tried again if and only if fewer than four have failed in a row; otherwise the build raises. The table and the alias do not change meanwhile. |
| `IndexProgress.BuildFinishes` | src/fastrag/indexing.py:93-144 | A build of distinct chunks in which no batch fails four times in a row, and nothing else fails or moves, finishes: its row is active and the alias names its collection, or it is validated when activation is deferred, and the collection holds exactly its chunks. |
| `IndexBuilder.Qdrant.CreateCollection` | src/fastrag/indexing.py:184-212 | The store after each point at which creating a collection can fail. |
| `IndexBuilder.Qdrant.Upsert` | src/fastrag/indexing.py:248-257 | An upsert may raise before or after it took effect. |
| `IndexBuilder.Builder.UpsertWithRetry` | src/fastrag/indexing.py:241-263 | The retry loop moves the build to the next batch or raises after four failed calls, as a run of the transition system. |
| `IndexBuilder.Builder.Upload` | src/fastrag/indexing.py:214-239 | The batch loop reaches the end of the chunks or raises. |
| `IndexBuilder.Builder.MarkValidated` | src/fastrag/indexing.py:128-137 | Marking validated, staging and storing the centroid, in that order. |
| `IndexBuilder.Builder.Activate` | src/fastrag/indexing.py:138-140 | Alias, registry and centroid promotion, in that order. |
| `IndexBuilder.Builder.BuildFromChunks` | src/fastrag/indexing.py:93-144 | A whole build, with its exception handler, is a run of the one-builder transition system, so the theorems above hold of it. |
| `Harness.BreakerCoherent` | src/fastrag/harness.py:85-118 | Under any interleaving of admissions, successes and failures the breaker is closed exactly while failures are below the threshold, for every threshold of at least 1, and for no other. |
| `Harness.HalfOpenExactly` | src/fastrag/harness.py:96-118 | For one reset time after a half-opening, over any interleaving of asks, successes and failures, a caller is admitted if and only if the failures since the last success are below the threshold, counting threshold - 1 from before; until a success, if and only if no failure has been recorded. |
| `Harness.HalfOpenAdmitsAll` | src/fastrag/harness.py:96-104 | After the reset time any number of callers is admitted as long as none records: there is no single probe. |
| `Harness.TripsExactly` | src/fastrag/harness.py:110-118 | A closed breaker trips at just the failure that makes as many in a row as the threshold, at the time of that failure, and never before. |
| `Harness.OpenExactly` | src/fastrag/harness.py:96-118 | An open breaker stays open for just the reset time from when it tripped: failures of calls still under way do not prolong it, and only a success ends it early. |
| `Harness.AdmissionBound` | src/fastrag/harness.py:96-118 | With calls that do not overlap and all fail and record, at most threshold + floor(T / reset) are admitted by time T. |
| `Harness.CircuitBreaker.CheckOpen` | src/fastrag/harness.py:96-108 | The getter half-opens the breaker it reads, and answers as the specification says. |
| `Harness.CircuitBreaker.OnSuccess` | src/fastrag/harness.py:110-112 | A success closes the breaker and clears its failures. |
| `Harness.CircuitBreaker.OnFailure` | src/fastrag/harness.py:114-118 | A failure is counted and opens the breaker at the threshold. |
| `Harness.CallDisciplined` | src/fastrag/harness.py:192-224 | Every call makes at most max_attempts attempts, starts none after the deadline, sleeps only when the sleep ends before it, and records once, a success exactly when it returns, unless the circuit was open, no attempt is allowed, or a deadline check ended it. |
| `Harness.CallTraced` | src/fastrag/harness.py:192-224 | What a call does, attempt by attempt: it is retried if and only if it failed retryably, not as the last allowed one, and the wait ends before the deadline; the wait is a positive Retry-After as it is, else the backoff; the next attempt begins when that is over; and each way of ending has its own exact condition and record. |
| `Harness.WaitsCapped` | src/fastrag/harness.py:56-60 | Every wait the server did not ask for is at most the longest backoff and at most initial * 2^i. |
| `Harness.ApplyIs` | src/fastrag/harness.py:110-118 | What a call leaves on the breaker it faced: nothing without a record, a cleared breaker after a success, one failure more after a failure, tripping it at the threshold. |
| `Harness.BackoffBound` | src/fastrag/harness.py:56-60 | Total backoff the server did not ask for is at most initial * (2^(n-1) - 1). |
| `Harness.ProviderHarness.RunCall` | src/fastrag/harness.py:192-224 | The retry loop refines the call the theorems above are about, and leaves the breaker with exactly its records. |
| `Streaming.RetriesDeliverNothing` | src/fastrag/adapters/generation.py:104-139 | Every attempt but the last delivers no token, and the last a prefix of its own. |
| `Streaming.StreamRecords` | src/fastrag/adapters/generation.py:104-139 | Attempts are bounded, and the breaker is recorded once, a success exactly on completion, unless nothing was tried or a deadline check ended the stream. |
| `Streaming.StreamFromTraced` | src/fastrag/adapters/generation.py:104-139 | What a stream does, attempt by attempt: it is tried again if and only if it broke retryably with nothing delivered, not as the last, and the wait, a positive Retry-After or else the backoff, ends before the deadline; the first attempt of which that is not so decides the stream and the record. |
| `Streaming.SingleAttempt` | src/fastrag/adapters/generation.py:104-139 | For every pattern of failures the caller reads a prefix of exactly one attempt, all of it on normal return. |
| `Streaming.Generator.Stream` | src/fastrag/adapters/generation.py:104-139 | The loop with its emitted flag refines that specification. |
| `Streaming.FallbackGenerator.Stream` | src/fastrag/adapters/generation.py:238-260 | The second provider is asked exactly when the first raised before delivering anything; the caller reads one attempt of one provider, last_provider names it, and both breakers, shared or not, end with exactly the records made. |
| `Ordering.RankBound` | src/fastrag/chunking.py:379-384 | At most k values lie strictly below the value of rank k. |
| `Ordering.RankReaches` | src/fastrag/chunking.py:379-384 | More than k values lie at or below the value of rank k. |
| `Ordering.RankIsQuantile` | src/fastrag/chunking.py:379-384 | The value picked is an observation with at most floor(n * q) of n below it and more than that many at or below it, for q in [0, 1); the smallest for a negative q, the largest for q of at least 1. |
| `Ordering.QuantileUnique` | src/fastrag/chunking.py:379-384 | There is only one such value. |
| `Calibration.AnyThreshold` | src/fastrag/calibrate.py:24-40 | Every real threshold has the F1 and rate of an observed score at or above it, or passes nothing. |
| `Calibration.RateAntitone` | src/fastrag/calibrate.py:24-40 | Raising the threshold never raises the false-answer rate. |
| `Calibration.F1Is` | src/fastrag/calibrate.py:32-34 | F1 is 2tp / (2tp + fp + fn), and 0 without a hit. |
| `Calibration.MeasuresAre` | src/fastrag/calibrate.py:27-34 | The rate is the share of unanswerable queries at or above the threshold, and F1 relates the answerable ones there to all answerable ones and all that pass; both are 0 where there is nothing to share. |
| `Calibration.ChooseGate` | src/fastrag/calibrate.py:24-40 | The gate returned has the highest F1 of all real thresholds whose false-answer rate is at most 0.05; of the observed scores with that F1 none has a lower rate, and none with that rate too is higher; it raises exactly when the list is empty or the maximum score itself breaks the limit. |
| `Calibration.ChooseConfidentGate` | src/fastrag/calibrate.py:43-54 | At least the floor; the least observed score from there on with no unanswerable at or above it; the maximum score if none exists. |
| `Calibration.CalibrateBands` | src/fastrag/calibrate.py:24-54 | On the calibration sample under grade: the share of unanswerable queries not graded incorrect is the reported rate, at most 0.05, and none is graded correct unless it attains the maximum score. |
| `Calibration.GradesExactly` | src/fastrag/crag.py:85-96 | A query is trusted if and only if its top score reaches both gates, and refined if and only if it reaches the lower one only. |
| `Calibration.ChooseCacheDistance` | src/fastrag/calibrate.py:68-83 | The distance has the highest F1 of all real distances with at most 1% false hits, ties going to the smaller; it raises exactly when the smallest distance breaks the limit. |
| `Calibration.ChooseOfftopicThreshold` | src/fastrag/calibrate.py:86-96 | An observed similarity with at most floor(n * quantile) of n strictly below it and more than that many at or below it, for a quantile in [0, 1); the minimum below that range, the maximum above. |
| `Batching.FirstEndsAhead` | scripts/selfcorpus/translate.py:152-175 | Against any other plan the first greedy batch ends no earlier. |
| `Batching.EstimateTokens` | scripts/selfcorpus/translate.py:148-149 | A quarter of the characters, rounded down, and at least one. |
| `Batching.StaysAhead` | scripts/selfcorpus/translate.py:152-175 | The greedy plan stays ahead, so no plan uses fewer batches. |
| `Batching.PlanBatches` | scripts/selfcorpus/translate.py:152-175 | The batches concatenate to the input; each is a singleton or within both limits; no batch had room for the document that opens the next; and no other such plan has fewer. |
| `Translation.RanExact` | scripts/selfcorpus/translate.py:249-277 | A batch loses nothing and stores nothing twice, and gives up on exactly the documents rejected when tried alone. |
| `Translation.RunBatch` | scripts/selfcorpus/translate.py:262-277 | One call, and after a failure one call per member: the ledger and the number of calls. |
| `Translation.RunSingly` | scripts/selfcorpus/translate.py:266-275 | The members of a rejected batch are tried one by one, in order. |
| `Translation.AllConserve` | scripts/selfcorpus/translate.py:279-291 | All tasks together store every document once or report it once. |
| `Translation.FailedExactly` | scripts/selfcorpus/translate.py:279-291 | A document is reported if and only if some task gave it up. |
| `Translation.Gather` | scripts/selfcorpus/translate.py:249-290 | All batches at once, one call of any unfinished task at a time in any order: what is stored and what is reported do not depend on the order, and the calls number at most the documents plus the batches. |
| `Translation.SplitCached` | scripts/selfcorpus/translate.py:281-287 | Cached documents and the others, each in order. |
| `Translation.WantedAt` | scripts/selfcorpus/translate.py:279-288 | What is wanted is, for each language in turn, each document in turn with its key and text. |
| `Translation.TranslateDocuments` | scripts/selfcorpus/translate.py:210-291 | Every document ends, in every language, with exactly one result or one reported failure; each language is packed into as few batches as can be; only documents the cache lacked can fail, exactly those rejected alone, and without provider failures none does. |
| `Chunking.Carry` | src/fastrag/chunking.py:137-146 | The carry is the longest suffix within the overlap. |
| `Chunking.SplitSentences` | src/fastrag/chunking.py:124-151 | The chunks are contiguous ranges of sentences whose ends strictly increase to the last sentence, each closed one full, each carry the longest suffix within the overlap, and each within max(size, overlap + the words of its first new sentence). |
| `Chunking.FreshRebuilds` | src/fastrag/chunking.py:124-151 | The new sentences of the chunks so far are the document up to the end of the last, and chunk ends strictly increase. |
| `Chunking.PackingRebuilds` | src/fastrag/chunking.py:124-151 | The chunks, each without what it carried, concatenate to the document. |
| `Chunking.WordWindows` | src/fastrag/chunking.py:81-96 | For every size and overlap: no window for an empty text or size zero, the whole text if it fits one, otherwise windows that start every step words and stop with the first that reaches the end; a negative size clips the windows from the end of the text, as slices do. |
| `Chunking.WindowsCoverExactly` | src/fastrag/chunking.py:81-96 | For every text, size and overlap: every word is in some window if and only if the text is empty, or the size is at least one and the text fits one window or the overlap is not negative. |
| `Chunking.WindowCount` | src/fastrag/chunking.py:81-96 | A text longer than one window has ceil((n - size) / step) + 1 windows. |
| `Chunking.WindowsRebuild` | src/fastrag/chunking.py:81-96 | Dropping the first size - step words of each later window rebuilds the text. |
| `Chunking.WindowsOfRebuild` | src/fastrag/chunking.py:81-96 | The same for every text, short ones included. |
| `Chunking.SplitHierarchical` | src/fastrag/chunking.py:243-256 | Parents are windows without overlap, and the children of each are its windows. |
| `Chunking.ParentsPartition` | src/fastrag/chunking.py:243-256 | The parents partition the document. |
| `Chunking.DipCutsExactly` | src/fastrag/chunking.py:207-226 | There are exactly as many cuts at dips as similarities below the cut. |
| `Chunking.DipsEnd` | src/fastrag/chunking.py:207-226 | A chunk ends after every sentence whose similarity to the next lies below the cut. |
| `Chunking.SimilarityCuts` | src/fastrag/chunking.py:379-384 | For m adjacent similarities and a fraction p in [0, 1): a chunk ends at every similarity below the cut, of which there are at most floor(m * p), and exactly that many when they are pairwise distinct. |
| `Chunking.SplitSemantic` | src/fastrag/chunking.py:207-226 | The chunks partition the sentences; each is closed by the word limit or by a similarity below the quantile of all of them, and by nothing else. |
| `GoldenBalance.GroupByLanguage` | scripts/ingest-msmarco.py:263-265 | One bucket per language that occurs, holding exactly its items in order; the buckets in the order in which the languages first occur. |
| `GoldenBalance.RoundRobin` | scripts/ingest-msmarco.py:261-277 | Exactly min(count, available) items; at every moment of the selection each language has given a prefix, two languages differ by at most one item unless the one with fewer is exhausted, and one that occurs first is never behind unless exhausted. |
| `GoldenBalance.SelectedExactly` | scripts/ingest-msmarco.py:243-252 | The two halves together have min(answerable + unanswerable, total) items if and only if the share of unanswerable questions asked for first fits in the total. |
| `GoldenBalance.RatioFits` | scripts/ingest-msmarco.py:243-244 | For a ratio between 0 and 1 that share fits, however ties round, if and only if the minimum is at least 1. |
| `GoldenBalance.AtMostExactly` | scripts/ingest-msmarco.py:257 | One id comes before another if and only if it is a prefix of it or has the lesser character at the first difference. |
| `GoldenBalance.SortSorts` | scripts/ingest-msmarco.py:257 | The sort by id is ascending and stable: for each id the same items in the same order. |
| `GoldenBalance.BalanceGolden` | scripts/ingest-msmarco.py:226-258 | With both kinds present it fails exactly when fewer than the minimum exist; otherwise the set has min(available, twice the minimum) items if the first share of unanswerable ones fits in that, and just that share if not; more unanswerable ones than the share are taken only as far as answerable ones run out; no item is taken more often than it occurs, both halves are fair, and the result is those halves sorted by id. |
| `Crag.KeptExactly` | src/fastrag/crag.py:194-197 | A sentence is kept for a passage if and only if a strip of it scored at least the threshold. |
| `Crag.KeptInOrder` | src/fastrag/crag.py:194-197 | They are kept in order, one for each such strip. |
| `Crag.StripsExactly` | src/fastrag/crag.py:179-183 | The strips are, candidate by candidate, every sentence of at least four words, in order and once. |
| `Crag.RefinementFaithful` | src/fastrag/crag.py:209-232 | Refinement keeps, in order and with their scores, exactly the passages with a strip at the threshold, each reduced to such strips or left whole when they are too short. |
| `Crag.GateDecides` | src/fastrag/crag.py:98-160 | An unscoped run proceeds if and only if the original ranking or the one rewritten retry has a top score at the threshold, and in the second case the retried ranking is used. |
| `Crag.RunByBand` | src/fastrag/crag.py:98-160 | Scoped or not: switched off, correction changes nothing and abstains below the gate; with the top score at both gates it changes nothing; between them it only refines, raising exactly when scores are needed and do not come; below both it only retries, raising exactly when retrieval fails, and uses the retried ranking exactly when it holds something, unscoped something at the gate. |
| `Crag.UsableExactly` | src/fastrag/crag.py:279-287 | A rewrite is worth a retry if and only if it is not blank and differs from the question by more than case and the whitespace around it. |
| `Crag.CorrectionFrom` | src/fastrag/crag.py:162-315 | Every passage returned has the identity and the score of one that was ranked. |
| `Crag.RefinedTopExactly` | src/fastrag/crag.py:209-242 | After refinement the first passage clears the gate if and only if the first candidate with a strip at the threshold scores at the threshold itself; for a descending ranking, if and only if some candidate at the threshold kept a strip; with no strip kept the ranking is unchanged. |
| `Crag.RefinementCanLowerTheTop` | src/fastrag/crag.py:209-242 | A run where the first passage after refinement scores below the threshold. |
| `Crag.CollectStrips` | src/fastrag/crag.py:179-183 | The strips of the candidates, in order. |
| `Crag.KeepStrips` | src/fastrag/crag.py:192-207 | The kept sentences by passage, and how many there are. |
| `Crag.Refine` | src/fastrag/crag.py:162-242 | The loops refine the refinement the theorems above are about. |
| `Crag.Run` | src/fastrag/crag.py:98-160 | Grade, then pass on, refine or retry, with every early return. |
| `AnswerCache.WordsUnwords` | src/fastrag/adapters/cache.py:18-19 | Splitting and rejoining the words of a question are inverse. |
| `AnswerCache.WordsSpaced` | src/fastrag/adapters/cache.py:18-19 | Whitespace before a text does not change its words. |
| `AnswerCache.WordsNext` | src/fastrag/adapters/cache.py:18-19 | A word followed by whitespace or by nothing is the first word, whole. |
| `AnswerCache.UnwordsAppend` | src/fastrag/adapters/cache.py:18-19 | Joining puts one space between neighbours and nothing else. |
| `AnswerCache.SameKeyExactly` | src/fastrag/adapters/cache.py:18-19 | Two questions share a key if and only if they have the same words after folding. |
| `AnswerCache.NearestHitExactly` | src/fastrag/adapters/cache.py:131-158 | With an index that returns a nearest entry, there is a semantic hit if and only if some entry of the namespace is within the distance, and it is a nearest one. |
| `AnswerCache.StoredExactly` | src/fastrag/adapters/cache.py:160-192 | What a write that got this far changes: the entry of its key and no other, and, once whole and for an answered question with a vector, one more entry of its namespace. |
| `AnswerCache.RedisAnswerCache.Initialize` | src/fastrag/adapters/cache.py:66-123 | An unreachable server switches the cache off, a missing search module only the semantic tier, and any other rejection raises. |
| `AnswerCache.RedisAnswerCache.GetExact` | src/fastrag/adapters/cache.py:125-129 | The entry of the namespace and normalised question, unless the cache is off or fails. |
| `AnswerCache.RedisAnswerCache.GetSemantic` | src/fastrag/adapters/cache.py:131-158 | The entry the index found, if it is in the namespace and within the distance; when the index returns a nearest entry, there is a hit if and only if some entry of the namespace is within the distance. |
| `AnswerCache.RedisAnswerCache.Put` | src/fastrag/adapters/cache.py:160-192 | The store after a write that stops anywhere; only answered questions reach the semantic tier. |
| `QueryPipeline.TakenFits` | src/fastrag/pipeline.py:707-718 | The contexts fit the token budget, come from the ranking, and every ranked chunk passed over was too large for what was left. |
| `QueryPipeline.SelectContexts` | src/fastrag/pipeline.py:707-718 | The accumulating loop refines that selection. |
| `QueryPipeline.DefaultIs` | src/fastrag/pipeline.py:438-446 | Generation cites the contexts in their order, and its default chunk is the first, if there is only one or the query is document-scoped. |
| `QueryPipeline.GenerateGrounded` | src/fastrag/pipeline.py:447-469 | Through a whole generation, however it ends, numbering stays a bijection and every sentence sent stays grounded. |
| `QueryPipeline.EventsInOrder` | src/fastrag/pipeline.py:147-548 | One meta event first; exactly one final event, last, when the query completes; none when it raises. |
| `QueryPipeline.FreshAnswersAreSafe` | src/fastrag/pipeline.py:389-548 | Every fresh answer: unscoped, the gate was passed; its citations are distinct, at least one, all from contexts that fit the budget; every sentence is grounded in them; and unscoped, exactly the sentences streamed. |
| `QueryPipeline.AnsweredExactly` | src/fastrag/pipeline.py:389-548 | Once nothing stops it before retrieval, an unscoped question is answered afresh if and only if something is retrieved, the gate is passed, a context fits, and generation ends well having rendered a sentence. |
| `QueryPipeline.ScopedAnsweredExactly` | src/fastrag/pipeline.py:409-529 | A document-scoped question is answered if and only if ranking succeeds, a context fits, and generation rendered a sentence or ended in a citation error that salvage made good; the gate plays no part. |
| `QueryPipeline.ServedExactly` | src/fastrag/pipeline.py:147-548 | The whole query: a fresh answer is given if and only if the text guard allows it, the index is known, no lookup the query may use hits, there is an embedding, the vector guard allows it or it is document-scoped, and the conditions of the two rows above hold. |
| `QueryPipeline.RefusedExactly` | src/fastrag/pipeline.py:616-633 | A query is refused if and only if the text guard blocks it, or the vector guard is reached and blocks it; the reader then gets the refusal once as text and once as a final result that cites nothing, and the cache gets nothing. |
| `QueryPipeline.StopsExactly` | src/fastrag/pipeline.py:238-358 | When a query raises for want of an index or an embedding, and when it replays an exact or a semantic hit, with just what is then sent. |
| `QueryPipeline.FailsExactly` | src/fastrag/pipeline.py:361-548 | Each later stage raises exactly for its own reason, and a query that completes without an answer says so. |
| `QueryPipeline.CorrectedIs` | src/fastrag/pipeline.py:550-599 | Without correction the ranking is the one given and the query abstains exactly below the gate, unless it is document-scoped with something ranked; with correction it is what correction makes of it. |
| `QueryPipeline.AnswerReads` | src/fastrag/pipeline.py:427-548 | Every fresh answer reads as what the model wrote: the stream is fed piece by piece, each sentence sent shows its piece token by token, each number shown is the position in the citation list of the context that was named, the numbers come in turn, and the answer is those sentences; a rescued document-scoped answer shows the whole text in the same way. |
| `QueryPipeline.WritersPassed` | src/fastrag/pipeline.py:216-358 | A query that offers something to the cache was let pass by both guards and is neither document-scoped nor cache-skipping. |
| `QueryPipeline.NothingCitedExactly` | src/fastrag/pipeline.py:518-529 | The guard for empty or uncited content fires exactly when no sentence was rendered. |
| `QueryPipeline.LacksExactly` | src/fastrag/pipeline.py:447-475 | Generation ends for want of a marker if and only if the stream does not break, every feed returns, there is no default chunk, and the text left over is not blank and holds no marker but torn ones. |
| `QueryPipeline.UnansweredText` | src/fastrag/pipeline.py:475-510 | An unscoped query that reaches generation and completes unanswered says so after the sentences it had already sent; when it had sent some, that happens if and only if generation ended for want of a marker, which is a condition on the text left over. |
| `QueryPipeline.MentionsExactly` | src/fastrag/pipeline.py:477-480 | The check for the no-answer text finds it exactly when it occurs somewhere in the raw answer. |
| `QueryPipeline.SentencesThenNoAnswer` | src/fastrag/pipeline.py:475-510 | A generation over two contexts whose reader sees a cited sentence and then the no-answer text. |
| `QueryPipeline.GateByTop` | src/fastrag/pipeline.py:550-599 | Put before any gate, a query passes if and only if the top score of its ranking or of its retry clears it. |
| `QueryPipeline.ThresholdNotInKey` | src/fastrag/pipeline.py:253-264 | Another gate changes neither the cache key of a query nor whether it uses the cache. |
| `QueryPipeline.KeysExactly` | src/fastrag/pipeline.py:253-264 | Two queries that use the cache share a namespace if and only if they have the same language, model, answer length, strategy in effect and content version, and a key if and only if their questions also have the same words after folding. |
| `QueryPipeline.PlainAnswer` | src/fastrag/pipeline.py:389-548 | Over one context that clears the gate and fits the budget, a query with plain text for a generation is answered. |
| `QueryPipeline.MissIsFresh` | src/fastrag/pipeline.py:268-358 | An answer marked as a cache miss comes from a fresh run. |
| `QueryPipeline.WritesAreFinals` | src/fastrag/pipeline.py:530-548 | The cache is offered the final answer itself, under the query's own key, for exactly the fresh completed results that are no refusal, unless the cache is skipped. |
| `QueryPipeline.ScopedIgnoresCache` | src/fastrag/pipeline.py:176-180 | A document-scoped or cache-skipping query does not depend on the cache and writes nothing. |
| `QueryPipeline.QueryPipeline.Produce` | src/fastrag/pipeline.py:447-469 | The token loop over the citation buffer refines the generation the theorems are about. |
| `QueryPipeline.QueryPipeline.ComposeAnswer` | src/fastrag/pipeline.py:427-548 | Selection, generation, salvage, both error paths and the write. |
| `QueryPipeline.QueryPipeline.Correct` | src/fastrag/pipeline.py:550-599 | The corrected ranking and whether to abstain, with correction on and off. |
| `QueryPipeline.QueryPipeline.AnswerQuery` | src/fastrag/pipeline.py:361-548 | Retrieval, reranking, correction and the answer, with every early return. |
| `QueryPipeline.QueryPipeline.Stream` | src/fastrag/pipeline.py:147-548 | The events, the stage that raised and the cache afterwards are those the theorems on whole queries are about, given what the two lookups found. |
| `QueryPipeline.QueryPipeline.CacheWrite` | src/fastrag/pipeline.py:728-735 | The store after a write, or untouched when the cache is skipped. |
| `QueryPipeline.QueryPipeline.GiveUp` | src/fastrag/pipeline.py:635-658 | The no-answer events, and its write. |
| `CacheHistory.StoredInHalves` | src/fastrag/adapters/cache.py:178-192 | An undisturbed write is its exact entry followed by its semantic one. |
| `CacheHistory.StepKeepsInv` | src/fastrag/pipeline.py:268-358 | Every step of the interleaved queries, writes, expiries and index switches keeps the cache accounted for by writes that queries of the same history made and served. |
| `CacheHistory.ReplayIsHit` | src/fastrag/pipeline.py:601-614 | A replay hands on what its lookup found, untouched. |
| `CacheHistory.ReplaysAreFaithful` | src/fastrag/pipeline.py:253-295 | Over every history each replay is traced to a query of that history: an exact hit is what was, when it looked, the latest write for its question and namespace; a semantic hit is an answered, cited write of its namespace within the distance, made before it looked; the author of the write is a fresh, unscoped query that both guards let pass and that had served just that answer; and author and reader agree in language, model, answer length, strategy in effect and content version, for an exact hit also in the words of the question, while for a semantic one their vectors are within the distance. |
| `CacheHistory.AuthorsPassed` | src/fastrag/pipeline.py:216-358 | Over every history the author of every write had been let pass by both guards. |
| `CacheHistory.LookupsFind` | src/fastrag/pipeline.py:268-358 | What the two lookups find: the entry of the key, and the entry the index returned if it is of the namespace and within the distance; nothing if the cache is down or the lookup fails. |
| `CacheHistory.WriteArrives` | src/fastrag/pipeline.py:530-548 | The write of a fresh result, if nothing comes in between, is stored whole and under its own query. |
| `CacheHistory.DownIsSilent` | src/fastrag/adapters/cache.py:66-80 | While the cache cannot be reached nothing is written and nothing is replayed, over every history. |
| `CacheHistory.ReplayedAnswersAreSafe` | src/fastrag/pipeline.py:253-295 | Over every history the author of a replayed answer passed its own gate and was safe in every other respect; it passes the gate of the reader if and only if one of its top scores clears that, and so whenever the reader asks no higher threshold. |
| `CacheHistory.ReplayBelowTheGate` | src/fastrag/pipeline.py:253-264 | A history in which a query with a lowered threshold is answered and cached, and the next reader is handed that answer though its author does not pass the gate of the reader. |
| `SseClient.NormalizeAppendExact` | website/lib/api.ts:97 | Normalising read by read equals normalising the whole if and only if the cut does not part a CR LF pair. |
| `SseClient.SplitResumes` | website/lib/api.ts:99-104 | Splitting what has arrived, and later the rest, finds the frames of the whole. |
| `SseClient.CutsCount` | website/lib/api.ts:97 | Normalised read by read, a text has one character too many for every CR LF pair cut in two, and is the normalised whole when none is. |
| `SseClient.SplitRejoins` | website/lib/api.ts:99-104 | The frames and the rest, joined by blank lines, are the text again. |
| `SseClient.FramesExactly` | website/lib/api.ts:99-104 | Each frame ends at the first blank line after its start, and the rest holds none. |
| `SseClient.FramesRefine` | website/lib/api.ts:92-105 | For every way of cutting a text into reads, the frames found read by read and the text left over are those of the whole normalised text if and only if no CR LF pair is cut. |
| `SseClient.BufferHasNoBoundary` | website/lib/api.ts:99-104 | Between reads the buffer never holds a complete boundary, however the text is cut. |
| `SseClient.CutPairSplitsFrame` | website/lib/api.ts:97 | A cut inside a CR LF pair that turns one frame into two. |
| `SseClient.CutDoesNotMatter` | website/lib/api.ts:92-106 | Two cuts of the same text that leave pairs whole dispatch the same frames. |
| `SseClient.LeftoverExactly` | website/lib/api.ts:106 | What is left in the buffer is dispatched if and only if the body was read to its end and the leftover is not blank. |
| `SseClient.LinesJoined` | website/lib/api.ts:120 | Splitting a frame at its newlines undoes joining its lines. |
| `SseClient.TrimOf` | website/lib/api.ts:121-122 | Trimming drops the blanks around a value and nothing of it. |
| `SseClient.WrittenFrame` | website/lib/api.ts:117-151 | For every frame, written from event, data and other lines in any order: its name is that of the last event line, its payload what the data lines joined by newlines parse to, and it calls the handler of that name with that payload; another name, no data or no payload calls nothing, and reading a field of null throws. |
| `SseClient.DispatchMeans` | website/lib/api.ts:117-151 | Every text of a frame is written from such lines, so every frame does what its text means and nothing else. |
| `SseClient.EndingAreTerminal` | website/lib/api.ts:62-72 | Unless a frame throws, there are as many terminal calls as frames named final or error with a payload. |
| `SseClient.StreamReader.Call` | website/lib/api.ts:62-72 | A handler call is logged and a terminal one marks the stream finished. |
| `SseClient.StreamReader.DispatchOne` | website/lib/api.ts:117-151 | One frame makes the call its text means, or none, or throws. |
| `SseClient.StreamReader.Drain` | website/lib/api.ts:99-104 | The inner loop dispatches every complete frame and keeps the rest. |
| `SseClient.StreamReader.Run` | website/lib/api.ts:88-110 | On a normal return the calls are those of the frames and, if no frame ended the stream, one error: so as many terminal calls as frames named final or error with a payload, and at least one. |

## Left out

- CitationRuns.FeedConserves: stated for feeds that do not discard; `CitationRuns.FeedDropsExactly` says exactly which do.
- CitationRuns.AnswerConserved: same condition, for a whole answer.
- Harness.AdmissionBound: only for calls that do not overlap; overlapping callers are all admitted once the reset time has passed.
- IndexLifecycle.IndexInvariant: builders have versions and collection names of their own; two builders racing on one version are not covered.
- GoldenBalance.BalanceGolden: `rounded` is whatever Python's round returns; `GoldenBalance.RatioFits` takes any integer within a half of the exact share.
- QueryPipeline.FreshAnswersAreSafe: about fresh answers; what a cache hit replays is `CacheHistory.ReplaysAreFaithful`.
- CacheHistory.ReplaysAreFaithful: a namespace is the tuple of its fields, so hash collisions are not modelled, and the index version is read when the query starts.
- AnswerCache.RedisAnswerCache.GetSemantic: the index may return any entry of the namespace, not only the nearest it is asked for, because the graph index is approximate; for one that returns the nearest the contract says exactly when there is a hit (`AnswerCache.NearestHitExactly`).
- IndexAlias.AliasExactly: actors on collections of their own, and no separate activation of what is active already; `IndexAlias.AlignedByCollection` does without that.
- Harness.HalfOpenExactly: for one reset time after the half-opening, and thresholds of at least 1.
- Harness.CallTraced: elapsed times, waits and Retry-After values are not negative, and jitter is within its window; `Streaming.StreamFromTraced` likewise.
- Citation numbers are ASCII digits; chunk ids are drawn from the marker alphabet, which src/fastrag/chunking.py:347 guarantees for ids the service makes.
- Floating point: scores, F1, similarities, time and backoff are exact reals; jitter is any value within its window; the minus-infinity score of a query with nothing ranked is not a score of the model.
- Case folding is a function the model does not look into; Unicode normalisation, script detection and language tags are not part of this model.
- Sentence splitting for chunks and strips (src/fastrag/text.py) and tokenising: text arrives as sentences of words, and a chunk's token cost is a function.
- Translation.Gather: writing a translation to disk does not fail; in the source such a failure is outside the handler and ends the whole run.
- Document fields of a citation other than its chunk id; timings, traces, metrics and logging.
- Cancellation: an exception that is not an Exception skips the handlers of the harness and of a build.
- A database commit whose acknowledgement is lost, and an upsert that takes effect after a later call.
- The stored centroid itself, and the embeddings and sparse vectors beside the payload of a point.
- Splitting and cleaning of translated text, sentence-window, fixed and metadata chunking, and the cosine of two embeddings.
- The TextDecoder, the idle timer and abort wiring of the event reader; all handlers are present.
- Guard patterns, configuration parsing, document parsing, admin routes, queue jobs, user interfaces and benchmark scripts.
