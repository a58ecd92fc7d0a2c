# RemoraHTTPInteractions: the lease store and the webhook response path

This Dafny project models the core of RemoraHTTPInteractions. That library lets a
Remora.Discord bot answer Discord interactions over an HTTP webhook: the
HTTP request itself carries the response, instead of a separate REST call. Four parts are modelled:

- **The keyed lease store** (`InMemoryDataStore` and `DataLease`, file
  `lease_store.dfy`). It maps keys to a value guarded by a binary semaphore.
  A caller leases an entry, which takes the semaphore and returns a handle
  holding a copy of the value. The holder may replace the value or mark the
  entry for deletion. Disposing the handle either writes the value back and
  releases the semaphore, or removes the entry and disposes the value. The
  concurrent dictionary and the semaphores are a sequential state machine:
  - Each entry records its semaphore's identity and whether it is held.
  - An await on a held semaphore is the outcome `WouldBlock`.
  - A semaphore counts as disposed once its entry has left the map.
  - `disposed` records, in order, every value handed to `Dispose`.
  - The ghost set `leases` records every lease issued.

  `Valid()` is the store's invariant. It makes semaphore identities fresh
  and unique per entry. It also gives mutual exclusion: a live lease on the
  current entry holds that entry's semaphore, and no two live leases hold
  the same semaphore.
- **The single-assignment response slot** (`CreateInteractionResponseAsync`,
  in `webhook_interaction_api.dfy`). It leases the entry stored under an
  interaction token, and completes the response held there unless it is
  already completed. It then releases the lease. The `TaskCompletionSource`
  is modelled as a shared object whose `response` field is `None` while
  pending (`interaction_response.dfy`).
- **The request handler** (`HandleInteractionAsync(IInteractionCreate)` and
  `NormalizeAttachments`, in `webhook_interaction_helper.dfy`). It stores a
  pending slot under the token and dispatches the interaction. It then
  awaits the slot, removes the entry, and builds the output: the response
  to serialise (with its attachments normalised) and the file streams to
  upload. The stream collection is the source's `foreach` loop.
- **Header extraction** (`DiscordHeaders.TryExtractHeaders`, in
  `discord_headers.dfy`). It is a pure function returning the boolean and
  both out-parameters.

`scenarios.dfy` and `interaction_scenarios.dfy` hold generic, fully stated
scenario methods. They follow the sequences the repository's tests use, plus
sequences for the double disposal of the finding below, the race between a
deletion and a marked lease, a removal before release, and a reused token.

Behaviour of the code that the model keeps:
- The code has no deadline or timeout path. The handler awaits without a
  bound, and the timestamp check in the API is only a comment.
- The handler ignores the result of adding the slot, rather than reporting
  a duplicate key.
- The handler, not the responder, removes the entry.
- A lease request on a held entry waits without a cancellation deadline.

## Model

| member | source | states |
|---|---|---|
| LeaseStore.InMemoryDataStore.constructor | RemoraHTTPInteractions/Services/InMemoryDataStore.cs:10 | A new store is empty and satisfies the mutual-exclusion invariant. |
| LeaseStore.InMemoryDataStore.TryAddValue | RemoraHTTPInteractions/Services/InMemoryDataStore.cs:12 | Succeeds exactly when the key is absent. On success the key maps to the value with a fresh, free semaphore. On failure the map is unchanged. The invariant is kept. |
| LeaseStore.InMemoryDataStore.TryGetLease | RemoraHTTPInteractions/Services/InMemoryDataStore.cs:14-23 | `NotFound` exactly when the key is absent. `WouldBlock` exactly when the key is present and its semaphore is held. In both cases nothing changes. Otherwise it returns a fresh, live, unmarked lease on that key and semaphore, holding the stored value, and only that entry becomes held. Mutual exclusion is preserved. |
| LeaseStore.InMemoryDataStore.Delete | RemoraHTTPInteractions/Services/InMemoryDataStore.cs:25-44 | Returns true exactly when the key was present. The key is gone afterwards. The removed value, and only it, is disposed. An absent key changes nothing. |
| LeaseStore.InMemoryDataStore.Update | RemoraHTTPInteractions/Services/InMemoryDataStore.cs:53-66 | `KeyNotFound` for an absent key and `LockNotHeld` for a free semaphore, both leaving the map unchanged. Otherwise it overwrites only that entry's value and keeps its semaphore. |
| LeaseStore.DataLease.constructor | RemoraHTTPInteractions/Services/InMemoryDataStore.cs:103-109 | The lease holds the given store, semaphore, key and value, and starts live and unmarked. |
| LeaseStore.DataLease.Data | RemoraHTTPInteractions/Services/InMemoryDataStore.cs:90-92 | The getter yields the lease's value exactly when the lease has not expired, and fails with `ObjectDisposed` otherwise. |
| LeaseStore.DataLease.SetData | RemoraHTTPInteractions/Services/InMemoryDataStore.cs:93-100 | An expired lease fails with `ObjectDisposed`. A null value fails with `ArgumentNull`. Either failure leaves the value as it was. Otherwise the value is replaced. |
| LeaseStore.DataLease.MarkForDeletion | RemoraHTTPInteractions/Services/InMemoryDataStore.cs:111-114 | Marks the lease, whether or not it has expired, and keeps the store invariant. |
| LeaseStore.DataLease.DisposeAsWritten | RemoraHTTPInteractions/Services/InMemoryDataStore.cs:116-144 | The source's disposal, which never consults `expired`. It gives the exact new store for every case. Unmarked: it updates and then releases this lease's semaphore, failing with `ObjectDisposed` when the entry now has a different semaphore. Marked: it removes the key, and disposes the stored value, or the lease's own value when the key was gone. |
| LeaseStore.DataLease.Dispose | RemoraHTTPInteractions/Services/InMemoryDataStore.cs:116-144 | Corrected disposal; a repeated call is a no-op. A live, unmarked lease on its current entry writes its value back and frees the entry. A marked lease removes the key and disposes exactly one value. Mutual exclusion is preserved on every path. |
| InteractionResponse.InteractionWebhookResponse.constructor | RemoraHTTPInteractions/InteractionResponseData.cs:8 | A new response slot is pending. |
| WebhookInteractionAPI.DiscordWebhookInteractionAPI.constructor | RemoraHTTPInteractions/Services/DiscordWebhookInteractionAPI.cs:28-29 | The API keeps the store it is given. |
| WebhookInteractionAPI.DiscordWebhookInteractionAPI.CreateInteractionResponse | RemoraHTTPInteractions/Services/DiscordWebhookInteractionAPI.cs:36-66 | An unknown token fails with `NotFoundError` and changes nothing. A pending slot becomes exactly (response, attachments); an already completed one keeps its first response, and both report success. The lease is released on every path: the map, including semaphore states, ends as it began, nothing is disposed, and every lease it took has expired. |
| WebhookInteractionAPI.DiscordWebhookInteractionAPI.RespondUnderLease | RemoraHTTPInteractions/Services/DiscordWebhookInteractionAPI.cs:54-61 | Under a live lease: the slot is completed only if pending. Disposal then restores the entries to their state before the lease, with the entry released and not deleted. |
| WebhookInteractionHelper.NormalizeList | RemoraHTTPInteractions/Services/WebhookInteractionHelper.cs:130-138 | Same length and order as the input. Every element is a partial attachment. An existing partial attachment passes through at its position. The file at position i becomes a partial attachment with ID i and the file's name and description. |
| WebhookInteractionHelper.NormalizeListIdempotent | RemoraHTTPInteractions/Services/WebhookInteractionHelper.cs:130-138 | Normalising a normalised list changes nothing. |
| WebhookInteractionHelper.NormalizedFileIdsDistinct | RemoraHTTPInteractions/Services/WebhookInteractionHelper.cs:132-134 | Files at different positions get different attachment IDs. |
| WebhookInteractionHelper.NormalizeAttachments | RemoraHTTPInteractions/Services/WebhookInteractionHelper.cs:114-141 | The response type is kept and the data becomes message data whose attachments are the normalised list. Given message data keeps every other field. Absent or non-message data is replaced by default message data carrying only those attachments. |
| WebhookInteractionHelper.FileIndicesCorrect | RemoraHTTPInteractions/Services/WebhookInteractionHelper.cs:91-101 | The k-th collected stream is the content of the k-th file attachment. The file positions are increasing, and they are exactly the positions that hold files. |
| WebhookInteractionHelper.FilesOnlyIndicesAreIdentity | RemoraHTTPInteractions/Services/WebhookInteractionHelper.cs:91-101 | With files only, the k-th stream comes from position k. |
| WebhookInteractionHelper.CollectStreams | RemoraHTTPInteractions/Services/WebhookInteractionHelper.cs:91-101 | The loop returns the contents of the file attachments in order, skipping partial attachments. |
| WebhookInteractionHelper.NoAttachmentsNoStreams | RemoraHTTPInteractions/Services/WebhookInteractionHelper.cs:84-88 | With attachments undefined, the payload is the response unchanged and there is no stream list. |
| WebhookInteractionHelper.StreamsMatchPayloadAttachments | RemoraHTTPInteractions/Services/WebhookInteractionHelper.cs:91-104 | With attachments defined, each stream k is paired with a file at position i. In the payload, position i holds a partial attachment with ID i and that file's name and description. |
| WebhookInteractionHelper.BuildOutput | RemoraHTTPInteractions/Services/WebhookInteractionHelper.cs:84-105 | The output for a delivered response is the reference output: no streams for undefined attachments, otherwise the normalised payload and the file streams. |
| WebhookInteractionHelper.WebhookInteractionHelper.constructor | RemoraHTTPInteractions/Services/WebhookInteractionHelper.cs:32-41 | The handler works over the store that the API leases from. |
| WebhookInteractionHelper.WebhookInteractionHelper.HandleInteraction | RemoraHTTPInteractions/Services/WebhookInteractionHelper.cs:71-106 | Reused token: the ignored add stores nothing, so the handler's own slot is unreachable and the await never completes. The map is unchanged, and the reply goes to the slot already stored under the token, completing it if that entry is free and its response still pending. Fresh token with no reply: the await never completes, and the only change is the token's new entry, with a free semaphore and a pending slot. Fresh token with a reply: the handler returns the reference output of that reply. It then removes the entry: the map ends as it began, and exactly one value, the slot holding the reply, is disposed. Whenever the await never completes, nothing is disposed. |
| DiscordHeaders.AsNullableString | RemoraHTTPInteractions/Services/DiscordHeaders.cs:29-36 | The implicit `StringValues` conversion behind the two assignments: null exactly for no value, the value itself for one value, and for several the non-empty values joined with commas. |
| DiscordHeaders.JoinSkippingEmptyJoinsNonEmpty | RemoraHTTPInteractions/Services/DiscordHeaders.cs:29-36 | The single-pass join of several values, which skips empty values and puts a comma before every value after the first one written, equals the plain comma join of the non-empty values. |
| DiscordHeaders.JoinOfNonEmptyValues | RemoraHTTPInteractions/Services/DiscordHeaders.cs:29-36 | A comma join of non-empty values is empty only when there are no values. |
| DiscordHeaders.NonEmptyKeepsNonEmptyValues | RemoraHTTPInteractions/Services/DiscordHeaders.cs:29-36 | When no value is empty, none is skipped. |
| DiscordHeaders.SeveralNonEmptyValuesJoined | RemoraHTTPInteractions/Services/DiscordHeaders.cs:29-36 | Several non-empty values convert to their plain comma join. |
| DiscordHeaders.EmptyValueSkipped | RemoraHTTPInteractions/Services/DiscordHeaders.cs:29-36 | `["", a]` with `a` non-empty converts to `a`, not `",a"`. |
| DiscordHeaders.TryExtractHeaders | RemoraHTTPInteractions/Services/DiscordHeaders.cs:14-38 | True exactly when both outputs are non-null, that is, when both headers are present with at least one value. Each output is null when its header is missing. Otherwise it is the converted value of that header: non-null exactly when the header has a value, and that value itself when there is only one. |
| DiscordHeaders.LookupsIndependent | RemoraHTTPInteractions/Services/DiscordHeaders.cs:25-38 | Each output depends only on its own header's lookup. |
| DiscordHeaders.ExtractsBothHeaders | RemoraHTTPInteractions.Tests/DiscordHeadersTests.cs:41-55 | One value for each header yields true and both values. |
| DiscordHeaders.MissingSignatureStillYieldsTimestamp | RemoraHTTPInteractions/Services/DiscordHeaders.cs:27-37 | A missing signature header gives false and a null key, but still yields the timestamp. |
| LeaseStoreScenarios.InsertThenLease | RemoraHTTPInteractions.Tests/InMemoryDataStoreTests.cs:8-28 | Inserting into a new store succeeds, and a lease then shows the inserted value. |
| LeaseStoreScenarios.LeaseOfAbsentKey | RemoraHTTPInteractions.Tests/InMemoryDataStoreTests.cs:31-38 | Leasing a key that was never added is not found. |
| LeaseStoreScenarios.SecondLeaseWaits | RemoraHTTPInteractions.Tests/InMemoryDataStoreTests.cs:41-54 | While a key is leased, a second lease request on it does not complete. |
| LeaseStoreScenarios.DisposingLeaseReleasesLock | RemoraHTTPInteractions.Tests/InMemoryDataStoreTests.cs:57-68 | After disposal the key can be leased again. |
| LeaseStoreScenarios.DeleteRemovesKeyOnDisposal | RemoraHTTPInteractions.Tests/InMemoryDataStoreTests.cs:71-84 | Disposing a marked lease removes the key and disposes the value once. |
| LeaseStoreScenarios.UpdateReflectsOnDisposal | RemoraHTTPInteractions.Tests/InMemoryDataStoreTests.cs:87-101 | A value set through the lease is seen by the next lease. |
| LeaseStoreScenarios.ExpiredLeaseRefusesAccess | RemoraHTTPInteractions/Services/InMemoryDataStore.cs:90-101 | Writing null is refused. After disposal, reads and writes fail with `ObjectDisposed`. |
| LeaseStoreScenarios.DeletionRacesDisposal | RemoraHTTPInteractions/Services/InMemoryDataStore.cs:126-142 | Deleting while a marked lease whose value was replaced is out: the lease's removal finds the key gone, and the stored value and then the lease's replacement value are each disposed once. The delete reports true and the key ends absent. |
| LeaseStoreScenarios.DeletionRacesUnchangedLease | RemoraHTTPInteractions/Services/InMemoryDataStore.cs:126-142 | The same race when the lease kept its value: `DeleteAsync` disposes the stored value, and the lease disposes its copy of that same value a second time. |
| LeaseStoreScenarios.RemovalBeforeRelease | RemoraHTTPInteractions/Services/InMemoryDataStore.cs:116-124 | An entry removed while an unmarked lease on it is still out makes that lease's disposal fail with `KeyNotFound`. |
| LeaseStoreScenarios.MarkedDisposalDisposesStoredValue | RemoraHTTPInteractions/Services/InMemoryDataStore.cs:126-131 | A marked lease whose value was replaced disposes only the value still stored, not its own new value. |
| LeaseStoreScenarios.DoubleDisposeAsWritten | RemoraHTTPInteractions/Services/InMemoryDataStore.cs:116-124 | With the source's disposal, a second dispose after another lease was granted lets a third lease in while the second is live. |
| LeaseStoreScenarios.DoubleDisposeIgnored | RemoraHTTPInteractions/Services/InMemoryDataStore.cs:116-124 | With the corrected disposal, the same sequence leaves the third request waiting. |
| InteractionScenarios.ApiSetsResponse | RemoraHTTPInteractions.Tests/DiscordWebhookInteractionsAPITests.cs:20-44 | A pending slot is completed with the given response, and the call succeeds. |
| InteractionScenarios.ApiFailsForUnknownToken | RemoraHTTPInteractions.Tests/DiscordWebhookInteractionsAPITests.cs:47-66 | An unknown token fails with `NotFoundError`. |
| InteractionScenarios.SecondResponseIgnored | RemoraHTTPInteractions/Services/DiscordWebhookInteractionAPI.cs:56-59 | A second response succeeds and leaves the first in place. |
| InteractionScenarios.HandleWithoutAttachments | RemoraHTTPInteractions.Tests/WebhookInteractionHelperTests.cs:50-71 | A reply without attachments returns the response unchanged and no stream list, and removes the entry. |
| InteractionScenarios.HandleWithOneFile | RemoraHTTPInteractions.Tests/WebhookInteractionHelperTests.cs:77-98 | One file and no data: default message data whose only attachment is the file with ID 0, and one stream, the file's content. |
| InteractionScenarios.HandleWithoutResponder | RemoraHTTPInteractions/Services/WebhookInteractionHelper.cs:76-80 | With no reply, the await never completes and the entry is left behind. |
| InteractionScenarios.ReusedTokenAnswersEarlierRequest | RemoraHTTPInteractions/Services/WebhookInteractionHelper.cs:75-80 | A second interaction with the token of a pending one: the second reply completes the earlier request's slot, and the second handler's own slot is never satisfied. The earlier handler's outcome is the one it had when it ran, before the reply. |

Every store and lease method requires the invariant (`Valid()`, or only its
well-formedness part for `TryGetLease`) as the object invariant of the
store. The caller-facing C# methods have no other precondition.

## Left out

- `DiscordHeaders.VerifySignature` is left out: it is hex decoding plus an Ed25519 check in a foreign cryptography library.
- JSON serialisation and deserialisation are left out, including the two string and stream overloads of `HandleInteractionAsync`. The output carries the value that would be serialised.
- Stream contents are opaque handles. The `InteractionMessageCallbackData` fields other than the attachments are represented by three sample fields.
- The pass-through REST methods of `DiscordWebhookInteractionAPI` are left out: they only forward to an API outside the repository.
- The API constructor's check against the caching API is left out: it is dependency-injection ordering glue.
- The `Instance` singletons and `ServiceCollectionExtensions` are not modelled: the model passes explicit store instances.
- The API and the handler use Remora's `InMemoryDataService` (`TryAddData`, `LeaseDataAsync`, `TryRemoveData`), which is not part of this model. The repository's own lease store stands in for it. This assumes the two behave alike for add, lease, unmarked release and removal.
- Concurrency is sequential. Semaphore queuing, waking a waiter on release, the thread safety of the concurrent dictionary and `CancellationToken` handling are not modelled. An await on a held semaphore is the outcome `WouldBlock`, and a waiter is never resumed. The fate of waiters on a disposed semaphore is not modelled.
- The responder dispatcher (`ResponderDispatchService.DispatchAsync`) is external. It is modelled as the reply, if any, that a responder gives through `CreateInteractionResponse` before the handler's await resumes, and the await itself as that check. Responders calling back more than once, or on other tokens, are not modelled.
- The inline continuation of the awaiting handler is not modelled. The slot's `TaskCompletionSource` is created with default options (WebhookInteractionHelper.cs:75), so `SetResult` (DiscordWebhookInteractionAPI.cs:61) may run the rest of the handler, including the removal of the entry (WebhookInteractionHelper.cs:82), before the responder's lease is released (DiscordWebhookInteractionAPI.cs:54). The model completes `CreateInteractionResponse` before the handler resumes. In the other order, the responder's release fails: `LeaseStoreScenarios.RemovalBeforeRelease` shows this with the stand-in store.
- A waiter that resumes with a stale value is not modelled. `TryGetLeaseAsync` reads the entry (InMemoryDataStore.cs:16) before it awaits the semaphore (line 18). A waiter resumed after another lease's write-back therefore builds its lease from the value read before that write-back, and its unmarked disposal writes that stale value back, losing the update. In the model a lease request reads the entry when it is granted, so only requests made after the release are covered.
- There are no timeouts: the code has none, and an await not satisfied when the handler runs is the outcome `NeverCompletes`.
- A `NeverCompletes` handler is never resumed. In the source, a later `SetResult` on its slot (DiscordWebhookInteractionAPI.cs:61) resumes its await (WebhookInteractionHelper.cs:80), removes the entry (line 82) and returns that reply. When a second interaction reuses the token of a pending one, this answers the earlier request with the later request's reply. `InteractionScenarios.ReusedTokenAnswersEarlierRequest` shows the reply reaching the earlier slot, not the earlier handler's resumption.
- `IDisposable`/`IAsyncDisposable` disposal of values is recorded in `disposed` as a log of every value handed over for disposal, whatever its runtime type. `SemaphoreSlim.Dispose` is implicit in an entry's removal, so the second semaphore dispose by a marked lease is not modelled.
- The `SemaphoreFullException` of releasing a free semaphore is not modelled: it is unreachable after `Update` has checked that the semaphore is held.
- Interaction IDs are natural numbers. The handler reads only the token, and the API ignores the ID.
- The casts in the handler cannot fail in the model: that of the response to `InteractionResponse` (WebhookInteractionHelper.cs:103), since the model has one response type, and that of the message data to `InteractionMessageCallbackData` in `NormalizeAttachments` (line 140), since the model has one message-data type. In the source either cast throws for another implementation of the interface.
- Header dictionaries are case-sensitive maps (the default comparer of the caller-supplied dictionary), and `StringValues` holds no null elements.

## Findings

| source | as written | input that shows it | evidently intended | confidence | as-written member | corrected member |
|---|---|---|---|---|---|---|
| RemoraHTTPInteractions/Services/InMemoryDataStore.cs:116-124 | `DisposeAsync` sets the expired flag but never checks it, so disposing an unmarked lease a second time runs `Update` and `Release` again | lease A on key k and dispose it; lease B on k; dispose A again: B's semaphore is released while B is live, and a third lease C on k is granted beside B | repeated disposal is ignored, as .NET asks of `DisposeAsync`; B stays the sole holder and C waits | medium, not executed | `LeaseStore.DataLease.DisposeAsWritten`, `LeaseStoreScenarios.DoubleDisposeAsWritten` | `LeaseStore.DataLease.Dispose`, `LeaseStoreScenarios.DoubleDisposeIgnored` |
