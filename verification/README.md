# Verified models of the order platform

Dafny models of the parts of the platform whose correctness is hardest to see by reading, with
proofs. `dafny verify dfyconfig.toml` checks all of it.

| Part | Files |
|---|---|
| The offline outbox of the driver app | `Backoff`, `OutboxTypes`, `OutboxQueue`, `OutboxStore`, `OutboxDrain`, `OutboxOutcomes`, `OutboxEngine`, `OutboxFairness`, `OutboxProtocol`, `OutboxSafety`, `OutboxRefinement`, `OutboxSpacing`, `OutboxPace`, `OutboxOverlap` |
| The price draft: fingerprint, check, Activate | `NumberText`, `PriceFingerprint`, `PriceWorkflow` |
| Source locations, permalinks, editor URIs | `Percent`, `SourceLocation`, `IdeDebug` |
| JSON of audit entries | `AuditJson` |
| Tenant configuration and application composition | `WorkflowBinding`, `TenantSchema`, `AppComposition` |
| The live order stream and its feed | `AgentStream`, `LiveFeed` |
| Scoring against the golden dataset | `GoldenEval` |
| Shared | `Sequences` (filter, stable sort, sums), `JsText` (trim, split, join) |

## How the outbox is modelled

Three layers. `OutboxQueue` and `OutboxDrain` state every operation on one list of rows in insertion
order. `OutboxStore` and `OutboxEngine` are classes with the fields of the source, whose methods are
proved against that list. `OutboxProtocol` takes every `await` apart: a state holds the store, the
messages on the wire, the server log, and any number of drains in flight; the network may deliver any
sent item at any time, several times, and after the sender threw. `OutboxRefinement` ties the layers
together.

The server is represented by the contract in `packages/driver-outbox/src/outbox.types.ts:9` alone:
the same key with the same content is stored once, the same key with other content is refused, and an
item is acknowledged only if the server holds it. Which outcomes it returns otherwise is arbitrary.

Assumptions that appear as preconditions: generated row ids are new (in runs; the store itself is
proved for repeated ids too), the clock does not go back, the two delays are positive, and, where
progress is claimed, `maxBatchSize` is positive. Instants are integer milliseconds.

## What the code does that one might not expect

- The comment in `packages/driver-outbox/src/backoff.ts:18` calls `baseDelayMs` the first wait.
  `retryLater` asks for the wait of `attempts + 1` (`packages/driver-outbox/src/outbox.ts:162`), so the
  first wait is min(2 * base, max) (`FirstWait`). The model follows the code.
- Claims take no lease. The waits of a row add up, whatever drains of the other kind do meanwhile, exactly
  when drains of one kind never overlap each other (`WaitsAddUpExactlyWithoutOverlap`).
  `StaleSnapshotWaits` says exactly when a single retry waits too little. Under overlap a drain may also
  return more than it removes (`FinishCountsItsRows`).
- A row id generated twice loses a row and leaves a stale index entry behind; `Append` and `PutNew`
  say that the maps agree exactly when this does not happen.
- A SKU that starts with the whole text of another row and a bar makes different drafts share a fingerprint
  (`BarsCollide`). Bars alone and colons alone are harmless, and so is any SKU without a bar behind a
  colon. `FaithfulExactly` says for which alphabets of SKU characters it cannot happen.
- A repository whose name ends in `.git` loses that ending when its normalised URL is normalised again
  (`NormalizingTwice`, `DotGitIsLostTheSecondTime`).
- Redaction does not look into an array that is an item of another array
  (`RedactionIsCompleteOutsideNestedArrays` gives the exact condition).

## Model

| member | source | states |
|---|---|---|
| `Backoff.DelayIsBoundedAndMonotone` | packages/driver-outbox/src/backoff.ts:20-29 | A wait is positive, never above the maximum, and never shrinks as attempts go up |
| `Backoff.DelayDoubles` | packages/driver-outbox/src/backoff.ts:26-28 | Below the exponent cap each wait is twice the one before, up to the maximum |
| `Backoff.ExponentCapInvisible` | packages/driver-outbox/src/backoff.ts:23-28 | Cutting the exponent at 32 changes no wait for any number of attempts if and only if base * 2^32 reaches the maximum |
| `Backoff.NothingDoubledYet` | packages/driver-outbox/src/backoff.ts:21 | For zero attempts and less the wait is the base, capped |
| `Backoff.DefaultSchedule` | packages/driver-outbox/src/outbox.types.ts:113-117 | The default policy waits 4 s, 8 s, ... 256 s, then 300 s, and sends 200 items at most |
| `Backoff.SameDelay` | packages/driver-outbox/src/backoff.ts:20-29 | Exactly when two attempt counts wait equally long |
| `Backoff.DoubledIsTimesPower` | packages/driver-outbox/src/backoff.ts:27 | The doubling used in the proofs is base * 2^n |
| `Sequences.SortByCharacterised` | packages/driver-outbox/src/memory-store.ts:42 | The stable sort is the one sorted sequence that keeps every group of ties exactly as it was |
| `OutboxQueue.EligibleRows` | packages/driver-outbox/src/memory-store.ts:34-39 | What can be claimed: exactly the rows of the kind that are PENDING and whose next attempt is not later than now |
| `OutboxQueue.ClaimTakesTheOldest` | packages/driver-outbox/src/memory-store.ts:31-45 | A claim takes only such rows; while there is room it leaves out only rows of another kind, BLOCKED ones and those not due; when full, no row it leaves out is older than a row it takes |
| `OutboxQueue.ClaimIsInOrder` | packages/driver-outbox/src/memory-store.ts:40-43 | A claim is sorted by capture instant; rows that tie come in insertion order and from the front of their group |
| `OutboxQueue.RemoveAllCount` | packages/driver-outbox/src/memory-store.ts:47-54 | Removing distinct present ids removes exactly that many rows |
| `OutboxStore.InMemoryOutboxStore.constructor` | packages/driver-outbox/src/memory-store.ts:15-17 | A new store is empty and its maps agree |
| `OutboxStore.InMemoryOutboxStore.Append` | packages/driver-outbox/src/memory-store.ts:19-29 | A key already present leaves both maps alone and hands back its row; otherwise the row joins at the end. The maps stay inverse if and only if the key was present or the row id is new |
| `OutboxStore.InMemoryOutboxStore.ClaimedFromTheStore` | packages/driver-outbox/src/memory-store.ts:31-45 | The same of the store, whose batch is also in capture order |
| `OutboxStore.InMemoryOutboxStore.ListBlocked` | packages/driver-outbox/src/memory-store.ts:88-90 | Lists the BLOCKED rows and no others |
| `OutboxStore.InMemoryOutboxStore.Remove` | packages/driver-outbox/src/memory-store.ts:47-54 | Removes exactly the rows with these ids, keeps the order of the rest, keeps the maps inverse |
| `OutboxStore.InMemoryOutboxStore.RemoveRow` | packages/driver-outbox/src/memory-store.ts:48-53 | One turn of that loop; a missing id changes nothing |
| `OutboxStore.InMemoryOutboxStore.Reschedule` | packages/driver-outbox/src/memory-store.ts:56-65 | Only the row with this id changes: one more attempt, the new instant, the error; a missing id changes nothing |
| `OutboxStore.InMemoryOutboxStore.Block` | packages/driver-outbox/src/memory-store.ts:67-76 | Only the row with this id changes: BLOCKED, one more attempt, the error; a missing id changes nothing |
| `OutboxStore.InMemoryOutboxStore.CountByState` | packages/driver-outbox/src/memory-store.ts:78-86 | pending + blocked is the number of rows, and blocked is the number of rows listed as blocked |
| `OutboxStore.InMemoryOutboxStore.PeekFindsTheRow` | packages/driver-outbox/src/memory-store.ts:93-96 | Looking a key up finds the one row that carries it, or nothing exactly when no row does |
| `OutboxStore.PutNew` | packages/driver-outbox/src/memory-store.ts:26-27 | Writing a row under a key not indexed keeps the two maps inverse if and only if its id is new |
| `OutboxStore.AgreeingMapsAreWellFormed` | packages/driver-outbox/src/memory-store.ts:16-17 | Inverse maps mean no id and no event key occurs twice |
| `OutboxDrain.FirstWait` | packages/driver-outbox/src/outbox.ts:160-163 | A row that never failed waits min(2 * base, max) first: the base itself if and only if base is the maximum |
| `OutboxDrain.DrainDecidesRowByRow` | packages/driver-outbox/src/outbox.ts:107-142 | Settling item by item and removing at the end decides every row on its own, for any answer |
| `OutboxOutcomes.DrainSettlesItsBatch` | packages/driver-outbox/src/outbox.ts:107-142 | Read off the raw answer and the rows' fields: an accepted item has no row left; a rejected one is BLOCKED with the reason; a retried, missing (MISSING_OUTCOME) or thrown one is PENDING, one attempt further, due one wait later, with its reason; the event itself never changes, and neither does any other row |
| `OutboxOutcomes.NoFailureMeans` | packages/driver-outbox/src/outbox.ts:120-141 | A drain ends without an error if and only if every item was accepted |
| `OutboxOutcomes.LastFailureMeans` | packages/driver-outbox/src/outbox.ts:120-141 | Otherwise its error is the reason of the last item not accepted |
| `OutboxOutcomes.WaitingRowsComeBack` | packages/driver-outbox/src/memory-store.ts:34-44 | A row that waits is claimed again once the clock reaches its next attempt, unless the claim is full of rows that are no younger |
| `OutboxDrain.DrainCountsRemovals` | packages/driver-outbox/src/outbox.ts:140-142 | The number of accepted items is the number of rows the drain removes |
| `OutboxDrain.DrainKeepsWellFormed` | packages/driver-outbox/src/outbox.ts:100-143 | A drain keeps ids and keys distinct |
| `OutboxDrain.ClaimedRows` | packages/driver-outbox/src/outbox.ts:101-103 | A batch has distinct ids and consists of due rows of the store |
| `OutboxEngine.OutboxEngine.constructor` | packages/driver-outbox/src/outbox.ts:62-68 | The policy is the one given or the default; nothing was attempted yet |
| `OutboxEngine.OutboxEngine.Enqueue` | packages/driver-outbox/src/outbox.ts:76-91 | A second tap on an event returns the first row and changes nothing; a new event joins at the end with exactly the key, kind, capture instant, payload and attachments of the command, untried, PENDING and due at once |
| `OutboxEngine.OutboxEngine.Drain` | packages/driver-outbox/src/outbox.ts:100-143 | Every claimed item is settled as `DrainSettlesItsBatch` says and no other row touched; the number returned is the number of rows removed; an empty batch leaves `lastAttemptAt` and `lastError` alone |
| `OutboxEngine.OutboxEngine.SettleAnswer` | packages/driver-outbox/src/outbox.ts:107-142 | The drain from the answer on |
| `OutboxEngine.OutboxEngine.RetryBatch` | packages/driver-outbox/src/outbox.ts:110-117 | After a throw every item of the batch backs off |
| `OutboxEngine.OutboxEngine.SettleBatch` | packages/driver-outbox/src/outbox.ts:119-138 | The settling loop gives the accepted ids, the last failure and the settled store of the specification; a missing outcome is a retry |
| `OutboxEngine.OutboxEngine.RetryLater` | packages/driver-outbox/src/outbox.ts:160-165 | The next instant is now plus the wait of `attempts + 1` of the snapshot |
| `OutboxEngine.OutboxEngine.Status` | packages/driver-outbox/src/outbox.ts:145-153 | The status adds up to the rows there are |
| `OutboxFairness.DrainTakesTheFront` | packages/driver-outbox/src/outbox.ts:100-143 | At a standing clock, whatever the sender answers, one drain takes exactly its batch off the front of the eligible rows |
| `OutboxFairness.DrainsWorkThroughTheQueue` | packages/driver-outbox/src/outbox.ts:100-165 | n drains attempt exactly the first n * maxBatchSize eligible rows in stable capture order, and exactly the rest stays eligible |
| `OutboxFairness.EveryEligibleRowGetsItsTurn` | packages/driver-outbox/src/outbox.ts:50-55 | No row of the kind is left PENDING and due if and only if there were enough drains; by then exactly the rows that were have been attempted, once each and oldest first |
| `OutboxProtocol.StepKeepsInv` | packages/driver-outbox/src/outbox.ts:76-165 | Every step (enqueue, claim, delivery, answer, one settling call, final removal, clock) keeps: distinct keys, genuine rows and messages, a sound server log, sound flights, nothing lost |
| `OutboxProtocol.RunKeepsInv` | packages/driver-outbox/src/outbox.ts:76-165 | So does every run, with any number of overlapping drains; the server log only grows |
| `OutboxProtocol.RowsLeaveInFinish` | packages/driver-outbox/src/outbox.ts:140 | A row leaves the store in one way only: a drain that accepted it removes it |
| `OutboxSafety.NothingIsLost` | packages/driver-outbox/src/outbox.ts:122-140 | After any interleaving, sends that throw after the server stored items included, every row ever appended is still queued with its content, or the server holds exactly that content |
| `OutboxSafety.OneRecordPerEvent` | packages/driver-outbox/src/outbox.types.ts:9-12 | The server never holds two records for one event key, and every record has the key, kind, capture instant, payload and attachments of an event enqueued in the run |
| `OutboxSafety.RowsAreEnqueuedEvents` | packages/driver-outbox/src/outbox.ts:76-91 | Every row ever appended is an event enqueued in the run, word for word |
| `OutboxSafety.EveryEventHasARow` | packages/driver-outbox/src/outbox.ts:76-91 | Every event ever enqueued has a row under its key |
| `OutboxSafety.NoEventIsLost` | packages/driver-outbox/src/outbox.ts:122-140 | So for every event ever enqueued, after any interleaving, a row or a server record with its key is there |
| `OutboxSafety.ServerContract` | packages/driver-outbox/src/outbox.types.ts:9-12 | What is assumed of network and server: a sent item may arrive at any time; an unknown key is recorded with what arrived, a known one changes nothing |
| `OutboxSafety.ClaimsAreSent` | packages/driver-outbox/src/outbox.ts:101-109 | A claim puts every item of its batch on the wire as it is |
| `OutboxSafety.RefusalsNeedTwoEvents` | packages/driver-outbox/src/outbox.types.ts:10-11 | A delivery is refused for its content only if two different rows were enqueued under its key: a resend never clashes with the row's own earlier delivery |
| `OutboxSafety.StepEvolves` | packages/driver-outbox/src/memory-store.ts:47-76 | What one step may do to the rows |
| `OutboxSafety.RowsAreFrozen` | packages/driver-outbox/src/memory-store.ts:47-76 | Over any run, key, kind, capture instant, payload and attachments never change, attempts never decrease, BLOCKED never turns back into PENDING, and a removed row never returns |
| `OutboxRefinement.UninterruptedDrainIsARun` | packages/driver-outbox/src/outbox.ts:100-143 | A drain that nothing interrupts is one particular run of the step system and ends with the queue the drain specification names |
| `OutboxSpacing.SerialStepKeepsInv` | packages/driver-outbox/src/outbox.ts:93-103 | While no two drains of one kind overlap (drains of different kinds may), every snapshot still to be settled is the row as it is now, and no claimed row is gone |
| `OutboxSpacing.SerialRunKeepsInv` | packages/driver-outbox/src/outbox.ts:93-143 | So it is in every state such a run reaches |
| `OutboxSpacing.PendingRowsWaitedInFull` | packages/driver-outbox/src/outbox.ts:160-165 | In every such run, a PENDING row with n attempts is not due before its enqueue instant plus the waits of failures 1 to n |
| `OutboxOverlap.WaitsAddUpExactlyWithoutOverlap` | packages/driver-outbox/src/outbox.ts:93-117 | For every policy with positive delays and batch size: the waits add up in all runs, where drains of some kinds may overlap drains of their own kind, if and only if there are no such kinds |
| `OutboxPace.FailuresAreSpacedInAnyWindow` | packages/driver-outbox/src/outbox.ts:160-165 | In any stretch of such a run, by the clock: from the second failure of a row on, each one has waited, so n failures take at least n - 1 first waits, however overdue the row was |
| `OutboxPace.SendsAreSpacedInAnyWindow` | packages/driver-outbox/src/outbox.ts:100-165 | In any stretch of such a run, by the clock: n sends of a row take at least the n - 1 waits that follow the attempts it had, whatever becomes of the row |
| `OutboxPace.SendFindsTheRowFree` | packages/driver-outbox/src/outbox.ts:101-103 | In such a run a row is sent only when it is due and no drain still has to settle or remove it |
| `OutboxOverlap.StaleSnapshotWaits` | packages/driver-outbox/src/outbox.ts:162 | A retry waits the delay of the attempt count it writes if and only if its snapshot is current, or the delay is capped already |
| `OutboxOverlap.OverlapShortensTheWait` | packages/driver-outbox/src/outbox.ts:100-117 | With two overlapping drains of one kind the sum of waits fails under every policy and for every kind: a run with two failures and one wait |
| `OutboxOverlap.FinishCountsItsRows` | packages/driver-outbox/src/outbox.ts:140-142 | A drain never returns less than the number of rows it removes, and exactly that number if and only if every accepted row is still there |
| `OutboxOverlap.SerialFinishCountsItsRows` | packages/driver-outbox/src/outbox.ts:140-142 | While no two drains of one kind overlap, a drain returns the number of rows it removes |
| `NumberText.PrintIsInjective` | apps/web/lib/price-workflow.ts:61-65 | Two numbers print alike only if they are the same number (Number::toString of ECMA-262, section 6.1.6.1.20) |
| `NumberText.ReadPrintPositive` | apps/web/lib/price-workflow.ts:61-65 | A reader gets the digits and the scale of every printed positive number back |
| `NumberText.PrintHoldsNoSeparator` | apps/web/lib/price-workflow.ts:65-68 | No printed number holds a colon or a bar |
| `NumberText.PlainNumbers` | apps/web/lib/price-workflow.ts:61-65 | Numbers at the borders of the plain notation |
| `NumberText.SmallNumbers` | apps/web/lib/price-workflow.ts:61-65 | Scientific notation for small numbers |
| `NumberText.LargeNumbers` | apps/web/lib/price-workflow.ts:61-65 | Scientific notation from 10^21 on |
| `PriceFingerprint.SameKeyMeans` | apps/web/lib/price-workflow.ts:56-64 | Rows count as the same if SKU and prices agree, null and missing being the same, whatever their ids |
| `PriceFingerprint.RowReads` | apps/web/lib/price-workflow.ts:59-65 | A row text is SKU, wholesale, minimum retail, retail and list price between colons, nothing where there is no price |
| `PriceFingerprint.TextOrderMeans` | apps/web/lib/price-workflow.ts:67 | The order of the row texts |
| `PriceFingerprint.KeyTextIsInjective` | apps/web/lib/price-workflow.ts:59-65 | A row text determines the SKU and the four prices, colons in SKUs included |
| `PriceFingerprint.SortForgetsOrder` | apps/web/lib/price-workflow.ts:67 | Sorting forgets the order of the rows and nothing else |
| `PriceFingerprint.SameFingerprintSameRows` | apps/web/lib/price-workflow.ts:56-69 | Two drafts have one fingerprint if and only if they hold the same SKUs and prices equally often, with null and missing the same, when no SKU of either draft starts with a row text of the other and a bar |
| `PriceFingerprint.NoBarAfterColon` | apps/web/lib/price-workflow.ts:61-68 | A SKU in which no bar comes after a colon starts with no row text and a bar |
| `PriceFingerprint.OneMoreRowShows` | apps/web/lib/price-workflow.ts:56-69 | Whatever the SKUs, one more row changes the fingerprint |
| `PriceFingerprint.EditedPricesShow` | apps/web/lib/price-workflow.ts:56-69 | Whatever the SKUs, changing the prices of one row changes the fingerprint if and only if it changes the row |
| `PriceWorkflow.BarsCollide` | apps/web/lib/price-workflow.ts:56-69 | Any two rows in text order have the fingerprint of one row whose SKU starts with the text of the first and a bar |
| `PriceWorkflow.FaithfulExactly` | apps/web/lib/price-workflow.ts:53-69 | For every alphabet of SKU characters, fingerprints tell all drafts apart if and only if it lacks the bar, or the colon, or the characters of every number |
| `PriceWorkflow.NothingBlocks` | apps/web/lib/price-workflow.ts:92-116 | A draft has no blocking issue if and only if it has rows, all with a positive wholesale price, and no more than two for a trial list |
| `PriceWorkflow.BlockingIssuesNameTheRows` | apps/web/lib/price-workflow.ts:92-116 | Which issue names which SKUs |
| `PriceWorkflow.CollectBlockingIssues` | apps/web/lib/price-workflow.ts:92-116 | The pushes give exactly the issues of the specification |
| `PriceWorkflow.OneModeAtATime` | apps/web/lib/price-workflow.ts:237-316 | The three modes, and what each shows: actions, step, issues, rows |
| `PriceWorkflow.ReadOnlyActions` | apps/web/lib/price-workflow.ts:318-368 | How a period that cannot be edited is classified, and who may archive it or start a new draft |
| `PriceWorkflow.ValidCheckShowsActivate` | apps/web/lib/price-workflow.ts:259-292 | Right after a check of a draft Activate shows if and only if it is valid and has a token |
| `PriceWorkflow.DroppedCheckHidesActivate` | apps/web/lib/price-workflow.ts:156-162 | Without a check, and for another period, it does not show |
| `PriceWorkflow.OneCellChanges` | apps/web/lib/price-rows.ts:36-50 | Typing into a cell sets the named column of that row and nothing else; an empty cell is no price, or zero for wholesale |
| `PriceWorkflow.NoCellChanges` | apps/web/lib/price-rows.ts:43-49 | An index outside the list changes nothing |
| `PriceWorkflow.EditsChangeTheRows` | apps/web/lib/price-period-view.ts:327-337 | Edits change the rows on screen and nothing else |
| `PriceWorkflow.AddedRow` | apps/web/lib/price-period-view.ts:332-337 | Nothing is added for a blank or known SKU; a new one joins at the end, trimmed, without prices |
| `PriceWorkflow.RemovedRow` | apps/web/lib/price-period-view.ts:327-329 | Exactly the rows with another SKU stay |
| `PriceWorkflow.ActivateShowsOnlyWhatWasChecked` | apps/web/lib/price-workflow.ts:156-162 | After any run of edits, imports and checks, Activate shows if and only if the period is a draft the user may configure, a valid check with a server token stands, and the rows rearrange the rows checked; it is assumed that no SKU of either starts with a row text of the other and a bar |
| `PriceWorkflow.ReviewShowsTheCheckedRows` | apps/web/lib/price-workflow.ts:270-292 | In review the rows shown are those the server checked; under the same condition on SKUs they hold what the rows on screen hold |
| `PriceWorkflow.OnlyRearrangingKeepsActivate` | apps/web/lib/price-workflow.ts:29-31 | While Activate shows, an edit keeps it if and only if it only rearranges rows (under the same condition on SKUs) |
| `PriceWorkflow.EditingACellHidesActivate` | apps/web/lib/price-rows.ts:36-50 | Whatever the SKUs, typing over a price takes Activate away if and only if the named column then shows something else |
| `PriceWorkflow.AddingHidesActivate` | apps/web/lib/price-period-view.ts:332-337 | Whatever the SKUs, adding a new one takes Activate away |
| `PriceWorkflow.AddThenRemove` | apps/web/lib/price-period-view.ts:327-337 | Adding a SKU and removing it restores the draft if and only if the SKU was new |
| `PriceWorkflow.RemovingRestoresTheScreen` | apps/web/lib/price-workflow.ts:53-54 | The same for the whole screen, review included |
| `PriceWorkflow.SkusStayUnique` | apps/web/lib/price-period-view.ts:331-337 | No run of edits puts two rows with one SKU on screen |
| `Percent.DecodeEncode` | packages/shared/src/source-location.ts:160 | Percent-decoding (section 2.1 of RFC 3986) gives every encoded text back |
| `Percent.EncodedIsPlain` | packages/shared/src/source-location.ts:160 | Encoded text holds unreserved characters and percent signs only |
| `Percent.PlainTextStays` | packages/shared/src/source-location.ts:160 | Encoding leaves a text alone if and only if it is made of letters, digits and the nine marks |
| `Percent.EncodedVietnamese` | packages/shared/src/source-location.ts:160 | A letter beyond ASCII becomes its UTF-8 bytes |
| `Percent.EncodedSpace` | packages/shared/src/source-location.ts:160 | A space becomes %20 |
| `Percent.EncodedLatin` | packages/shared/src/source-location.ts:160 | A letter of two bytes, in upper-case hexadecimal |
| `JsText.TrimMeans` | packages/shared/src/source-location.ts:66-68 | Trimming takes off the spaces at both ends and nothing else |
| `JsText.SpacesAre` | packages/shared/src/source-location.ts:66-68 | Which characters are spaces (ECMA-262, sections 12.2 and 12.3) |
| `SourceLocation.AcceptedPaths` | packages/shared/src/source-location.ts:77-91 | A path is accepted if and only if it joins proper segments without backslash or colon |
| `SourceLocation.NormalizedLocation` | packages/shared/src/source-location.ts:99-114 | When there is a location and what it holds: trimmed path, trimmed name unless blank, the line if it is a positive integer |
| `SourceLocation.NormalizeIsIdempotent` | packages/shared/src/source-location.ts:99-114 | A location that passed passes again unchanged |
| `SourceLocation.RepoNameMeans` | packages/shared/src/source-location.ts:127-130 | The repo name read off a remote is what stands before `.git`, `/`, `.git/` or the end, and nothing else |
| `SourceLocation.RemoteSpellings` | packages/shared/src/source-location.ts:123-136 | Every spelling of a GitHub remote gives the URL of the repository it names |
| `SourceLocation.AcceptedRemotes` | packages/shared/src/source-location.ts:116-136 | A text is read as a repository if and only if, trimmed, it is one of the four prefixes, an owner, a slash, a repo and an ending: no other host, path or character gets through |
| `SourceLocation.NormalizingTwice` | packages/shared/src/source-location.ts:123-136 | Normalising a normalised URL changes nothing if and only if that URL does not end in `.git` |
| `SourceLocation.DotGitIsLostTheSecondTime` | packages/shared/src/source-location.ts:127-130 | For every owner and repo, a remote whose normalised URL ends in `.git` and loses that ending the second time |
| `SourceLocation.PermalinkText` | packages/shared/src/source-location.ts:145-163 | A permalink exists if and only if repository, release (7 to 40 hexadecimal digits) and location are usable; and how it reads |
| `SourceLocation.PermalinkReadsBack` | packages/shared/src/source-location.ts:145-163 | Split and decoded it gives back exactly owner, repo, release, file segments and the line |
| `IdeDebug.RefusedInputs` | apps/web/lib/ide-debug.ts:75-88 | Which input is refused for which reason |
| `IdeDebug.EditorUriReadsBack` | apps/web/lib/ide-debug.ts:115-132 | An editor URI exists if and only if the root is absolute and the path accepted; split and decoded it gives back the scheme, the root as typed (backslashes read as slashes, less trailing slashes) followed by the file segments, and the line if it is a positive integer |
| `IdeDebug.RootStartsWithItsDrive` | apps/web/lib/ide-debug.ts:49-50 | A Windows root starts with its drive segment, a POSIX root with an empty one |
| `IdeDebug.EditorUriText` | apps/web/lib/ide-debug.ts:102-132 | How the URI reads: each segment encoded on its own, a drive left alone |
| `IdeDebug.UriDeterminesTarget` | apps/web/lib/ide-debug.ts:115-132 | No two targets share a URI |
| `IdeDebug.TargetStaysUnderTheRoot` | apps/web/lib/ide-debug.ts:18-26 | Walked like a file system path, the target is the root followed by the file's own segments |
| `AuditJson.SafeChangesOnlyForeignData` | apps/web/lib/settings.ts:599-616 | Sanitising always yields JSON, changes nothing if and only if its argument is an object of JSON values, and is idempotent |
| `AuditJson.SafeKeepsTheRest` | apps/web/lib/settings.ts:599-610 | Exactly the entries with data survive, in order: JSON unchanged, arrays with all their JSON items, objects sanitised in turn |
| `AuditJson.SafeShrinks` | apps/web/lib/settings.ts:606 | Sanitising never makes a value larger, which is why redaction terminates |
| `AuditJson.InnerSanitisingIsRedundant` | apps/web/lib/settings.ts:945-948 | On JSON the sanitising inside redaction does nothing |
| `AuditJson.RedactionCharacterised` | apps/web/lib/settings.ts:938-952 | The redacted object is the one JSON value that hides every sensitive key redaction reaches and equals the argument everywhere else |
| `AuditJson.SameRedactionIsAlike` | apps/web/lib/settings.ts:938-952 | Two audit objects look the same after redaction if and only if they differ only in values of sensitive keys it reaches |
| `AuditJson.RedactionIsIdempotent` | apps/web/lib/settings.ts:938-952 | Redacting twice is redacting once |
| `AuditJson.RedactionIsCompleteOutsideNestedArrays` | apps/web/lib/settings.ts:942-946 | Nothing sensitive shows after redaction if and only if the arrays directly inside arrays held nothing sensitive |
| `AuditJson.NestedArraysStayVisible` | apps/web/lib/settings.ts:942-946 | An object whose phone number, inside such an array, still shows: why the condition is needed |
| `AuditJson.SensitiveKeys` | apps/web/lib/settings.ts:935-936 | A key is sensitive if and only if one of the listed words stands in it, anywhere and in any case |
| `AuditJson.SensitiveValueHidden` | apps/web/lib/settings.ts:941 | What stands in place of a sensitive value |
| `WorkflowBinding.CheckWorkflowEngine` | packages/tenant/src/workflow-binding.schema.ts:98-132 | The issues reported are exactly the violations: missing credential, bindings enabled without an engine, repeated keys |
| `WorkflowBinding.AcceptedEngineMeans` | packages/tenant/src/workflow-binding.schema.ts:98-132 | What an accepted engine guarantees, as an equivalence |
| `WorkflowBinding.LookupFindsTheBinding` | packages/tenant/src/tenant.config.ts:386-398 | For an accepted engine the lookup succeeds if and only if the key has an enabled binding, and returns the only binding with that key, on an engine with a credential |
| `WorkflowBinding.LookupReads` | packages/tenant/src/tenant.config.ts:389-398 | For any engine: nothing without one, otherwise the first enabled binding with the key |
| `WorkflowBinding.OrderDecidesBetweenDuplicates` | packages/tenant/src/workflow-binding.schema.ts:122-131 | With a repeated key the order would decide; such an engine is refused |
| `TenantSchema.CheckTenantConfig` | packages/tenant/src/tenant.schema.ts:1031-1136 | The issues reported are exactly the violations of the cross-checks |
| `TenantSchema.CheckTable` | packages/tenant/src/tenant.schema.ts:1034-1066 | The loop over the capabilities reports exactly the missing dependencies and sections of the requirement table |
| `TenantSchema.ClosedIsTransitive` | packages/tenant/src/tenant.schema.ts:1034-1044 | For any requirement table, checking direct dependencies is checking everything depended on, however indirectly |
| `TenantSchema.ExperienceIsSupported` | packages/tenant/src/tenant.schema.ts:1127-1135 | In an accepted tenant everything the experience or a capability rests on, however indirectly, is enabled |
| `TenantSchema.AcceptedExactly` | packages/tenant/src/tenant.schema.ts:804-1136 | A tenant is accepted if and only if capabilities are listed once each, the engine is accepted, every capability and the experience have what they need (spelled out), and an enabled follow-up is bound |
| `TenantSchema.FollowupIssue` | packages/tenant/src/tenant.schema.ts:1109-1125 | A follow-up is an issue if and only if it is configured, switched on and without an enabled binding |
| `TenantSchema.FollowupRead` | packages/tenant/src/tenant.config.ts:342-346 | The follow-up is read only with the capability and its policy |
| `TenantSchema.FollowupIsAlwaysBound` | packages/tenant/src/tenant.schema.ts:1109-1125 | An enabled hand-off follow-up of an accepted tenant finds, at run time, the one binding with its key, enabled, on an engine with a credential |
| `TenantSchema.TableIsTransitive` | packages/tenant/src/tenant.schema.ts:804-963 | No path of dependencies returns to where it started, and every list already names everything its members lead to |
| `AppComposition.ComposedItems` | apps/api/src/app-composition.ts:1016-1023 | Composed are the items of the foundation, always, and those of enabled capabilities, in table order |
| `AppComposition.ComposeIsMonotone` | apps/api/src/app-composition.ts:1016-1023 | Fewer capabilities compose what more do with items left out, nothing moved or added; the order of the capability list does not matter |
| `AppComposition.LastEnabledWins` | apps/api/src/app-composition.ts:1016-1023 | A token resolves to the last provider for it whose owner is enabled, for any provider table |
| `AppComposition.OverrideReplacesTheDefault` | apps/api/src/app-composition.ts:742-795 | Of a default and an override behind it, the override is resolved if and only if its owner is enabled, otherwise the default |
| `AppComposition.TokenFollowsItsDefault` | apps/api/src/app-composition.ts:742-795 | In an accepted tenant such a token resolves if and only if the owner of the default is enabled |
| `AgentStream.IdleByRole` | apps/web/lib/live.ts:63-67 | All six roles, all idle |
| `AgentStream.AgentStreamView.constructor` | apps/web/hooks/useAgentStream.ts:39-40 | The view starts with the cached list and no runs |
| `AgentStream.AgentStreamView.Handle` | apps/web/hooks/useAgentStream.ts:61-97 | The handler does what the reducer says and keeps ids distinct |
| `AgentStream.AgentStreamView.Sweep` | apps/web/hooks/useAgentStream.ts:110-121 | The sweep removes exactly the runs that went quiet |
| `AgentStream.SweepRuns` | apps/web/hooks/useAgentStream.ts:111-120 | The loop with its `changed` flag is a filter, also when it returns the old map |
| `AgentStream.ShownStates` | apps/web/lib/live.ts:56-61 | What a role shows for each phase and step status |
| `AgentStream.EventsChangeTheirRun` | apps/web/hooks/useAgentStream.ts:61-97 | What each event does to the run of its order, and to no other |
| `AgentStream.SweepsEndQuietRuns` | apps/web/hooks/useAgentStream.ts:110-121 | A sweep ends exactly the runs silent for more than 15 seconds; switching off ends all |
| `AgentStream.EventsWriteToTheCache` | apps/web/hooks/useAgentStream.ts:84-95 | Which events write to the cache |
| `AgentStream.UpsertPlaces` | apps/web/hooks/useAgentStream.ts:15-24 | A known order is replaced in place, a new one goes to the front |
| `AgentStream.PutPlaces` | apps/web/hooks/useAgentStream.ts:64-71 | A run set again keeps its place, a new one goes to the end |
| `AgentStream.FindUpserted` | apps/web/hooks/useAgentStream.ts:15-24 | An upsert changes the cached copy of its own order and of no other |
| `AgentStream.IdsStayDistinct` | apps/web/hooks/useAgentStream.ts:15-24 | After every trace no order is cached twice and no run occurs twice |
| `AgentStream.NextRun` | apps/web/hooks/useAgentStream.ts:62-90 | One step touches the run of one order only as its own events say |
| `AgentStream.RunsFollowTheirOrders` | apps/web/hooks/useAgentStream.ts:61-121 | A run exists if and only if its order was created and since then neither created again, finalised, switched off, nor silent too long at a sweep; it shows the latest progress of each of the six roles since the creation, and progress never brings it back |
| `AgentStream.CacheHoldsTheLastWrite` | apps/web/hooks/useAgentStream.ts:83-95 | The cached copy of an order is the last one written |
| `LiveFeed.BuildFeedItems` | apps/web/lib/live.ts:87-126 | The two loops with the `seen` set and the sort compute the merged feed |
| `LiveFeed.FeedShowsEveryOrderOnce` | apps/web/lib/live.ts:87-126 | One item for every order cached or running and none besides, later instants first; what each item says: the order's data if cached, otherwise the placeholder's, and processing exactly while a run exists |
| `LiveFeed.FirstStepOfRole` | apps/web/lib/live.ts:73 | The step shown for a role is the first one of that role |
| `LiveFeed.StaticRoleShows` | apps/web/lib/live.ts:70-77 | A finished role shows the state of that step |
| `LiveFeed.FeedAfterAnyTrace` | apps/web/lib/live.ts:86-126 | The same after every trace, in terms of the events alone |
| `LiveFeed.StaticReveal` | apps/web/lib/live.ts:70-77 | All six roles, each with the first step of its own in the trace |
| `LiveFeed.DeriveReveal` | apps/web/lib/live.ts:80-84 | A row is revealed if and only if its order is there and no run is; it always has all six roles |
| `GoldenEval.MetricCounter.Add` | tools/poc-parser/src/eval-core.ts:150-153 | One metric counts one more check, the others stay |
| `GoldenEval.RecordIfAsked` | tools/poc-parser/src/eval-core.ts:132-142 | The counter and the mismatch list agree with the checks made so far |
| `GoldenEval.ComputeGoldenMetrics` | tools/poc-parser/src/eval-core.ts:79-143 | The mismatches are exactly the failed checks, in order, and every ratio is that of its metric's checks; differing lengths are refused |
| `GoldenEval.WrongOnesAreReported` | tools/poc-parser/src/eval-core.ts:139-141 | For every metric, total minus ok is the number of its mismatches |
| `GoldenEval.CaseIsCompared` | tools/poc-parser/src/eval-core.ts:86-121 | What is compared of a case and its answer, metric by metric, and nothing else |
| `GoldenEval.ExtractedParts` | tools/poc-parser/src/eval-core.ts:175-193 | Items are the priced lines, or the parsed items if there are none; a policy is the first text under its three names |
| `GoldenEval.ReadProperty` | tools/poc-parser/src/eval-core.ts:199-215 | A property is found by its name |
| `GoldenEval.ReadKinds` | tools/poc-parser/src/eval-core.ts:199-215 | It is read only if it is a text, a finite number or an array, as asked for |
| `GoldenEval.MismatchesDisagree` | tools/poc-parser/src/eval-core.ts:217-222 | A mismatch is reported if and only if the normalised texts differ, or values that are not both texts differ |
| `GoldenEval.RatioIsThePart` | tools/poc-parser/src/eval-core.ts:168-172 | A ratio is ok divided by total, and 1 without checks |
| `GoldenEval.RatioMeansMismatches` | tools/poc-parser/src/eval-core.ts:168-172 | Every ratio lies between 0 and 1, and is 1 if and only if the metric has no mismatch |
| `GoldenEval.ReadyMeansAllRatiosAreOne` | tools/poc-parser/src/eval-core.ts:123-130 | There is no mismatch, so going live is allowed, if and only if all eight ratios are 1 |
| `GoldenEval.ScoresIgnoreTheOrder` | tools/poc-parser/src/eval-core.ts:86-121 | Shuffling the cases together with their answers changes no count |

## Left out

- `Date` and ISO strings: instants are integers, so unparsable timestamps, the `RangeError` of an
  instant outside the range of `Date`, and `localeCompare` on timestamps of mixed formats are not
  modelled. Feed items are compared by instant.
- `backoffDelayMs` on fractional, infinite or NaN attempt counts: attempts are integers, as every caller
  passes them.
- The SQLite store of the app: only the reference store in memory is in the repository.
- Row ids, event keys and order ids are values that can only be compared; payloads are opaque text.
- What the real server rejects, and when: outcomes are arbitrary except that an acknowledgement implies a
  stored record.
- The outbox's own listing of blocked items (`blocked()`) is `ListBlocked` of the store.
- Lone surrogates and the UTF-16 order of `sort()`: strings are sequences of Unicode scalar values, so
  `encodeURIComponent` never throws and texts sort by code point. Nothing proved about fingerprints
  depends on which total order is used.
- The two zeros of Number are one value; they print alike.
- Number::toString is modelled from its decimal digits on: choosing the shortest digits for a double is not
  part of this model.
- `toPriceValue`: an edit carries the number it gives, not the text typed; an import carries rows, not
  files.
- Labels, hints, titles, confirmation texts and messages of issues, throughout.
- The effects around the price screen: saving before a check, the second check inside activation, and the
  server's fingerprint, which is an opaque token.
- `localStorage` preferences of the editor choice and `ideRejectionMessage`.
- Getters, prototypes and sparse arrays of values given to the JSON functions; an object is the list
  `Object.entries` gives.
- CheckTenantConfig: says which issues are reported, not their order, paths and texts. The plain field
  schemas are left to the schema library.
- CheckWorkflowEngine: likewise.
- PendingRowsWaitedInFull: speaks of runs without overlapping drains of one kind; `WaitsAddUpExactlyWithoutOverlap`
  shows that this is the exact condition. FailuresAreSpacedInAnyWindow and SendsAreSpacedInAnyWindow speak
  of the same runs.
- The concrete provider, controller and import tables: the results hold for every table. Instantiation of
  providers is the framework's.
- Reconnecting of the event stream, `onCreated`, and cache invalidation: reloading the list is a step of its
  own, whose answer names every order once.
- Unicode normalisation of the golden evaluation (`normalizeText`) is a function parameter; ratios are exact
  quotients. Parsing the dataset file is not part of this model.
- React components, HTTP clients, the database, the workflow engine and the marketing site.
