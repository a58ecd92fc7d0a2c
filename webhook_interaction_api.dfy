/** `DiscordWebhookInteractionAPI.CreateInteractionResponseAsync`: instead of
    calling Discord, it completes the pending response stored under the
    interaction's token.

    The source leases through Remora's `InMemoryDataService`; this model
    uses the lease store of `LeaseStore` in its place, assuming the two
    behave alike for leasing an entry and releasing it unmarked. */
module WebhookInteractionAPI {
  import opened Wrappers
  import opened LeaseStore
  import opened InteractionResponse

  /** The store of pending responses, keyed by interaction token. */
  type ResponseStore = InMemoryDataStore<string, InteractionWebhookResponse>

  /** `Result`: success, the lease error passed on, or a call that does not
      complete because another lease holds the entry. */
  datatype ApiResult = Succeeded | Failed(error: StoreError) | Blocked

  /** The response slot stored under `token`, if any. */
  function SlotOf(store: ResponseStore, token: string): set<InteractionWebhookResponse>
    reads store
  {
    if token in store.data then {store.data[token].value} else {}
  }

  class DiscordWebhookInteractionAPI {
    const dataService: ResponseStore

    constructor (dataService: ResponseStore)
      ensures this.dataService == dataService
    {
      this.dataService := dataService;
    }

    /** Lease the token's entry; if its response is still pending, complete
        it with (response, attachments); release the lease either way.
        The response is written at most once; the entry stays in the store
        and is never marked for deletion. */
    method CreateInteractionResponse(interactionToken: string, response: Response, attachments: Option<seq<Attachment>>)
      returns (r: ApiResult)
      requires dataService.Valid()
      modifies dataService, SlotOf(dataService, interactionToken)
      ensures dataService.Valid()
      ensures dataService.data == old(dataService.data)
      ensures dataService.disposed == old(dataService.disposed)
      ensures forall l | l in dataService.leases - old(dataService.leases) :: l.expired
      ensures r == Failed(NotFoundError) <==> interactionToken !in old(dataService.data)
      ensures r == Blocked <==> interactionToken in old(dataService.data) && old(dataService.data[interactionToken].held)
      ensures r == Succeeded || r == Blocked || r == Failed(NotFoundError)
      ensures !r.Succeeded? ==> unchanged(SlotOf(dataService, interactionToken))
      ensures r.Succeeded? ==>
        var slot := dataService.data[interactionToken].value;
        slot.response == if old(slot.response).Some? then old(slot.response) else Some(ResponseData(response, attachments))
    {
      ghost var before := dataService.data;
      var interactionResult := dataService.TryGetLease(interactionToken);
      assert dataService.Valid();
      match interactionResult
      case NotFound =>
        // The interaction was already responded to and removed, or never existed.
        return Failed(NotFoundError);
      case WouldBlock =>
        return Blocked;
      case Leased(interaction) =>
        assert SlotOf(dataService, interactionToken) == {interaction.value};
        RespondUnderLease(interaction, ResponseData(response, attachments), before);
        r := Succeeded;
    }

    /** The body of the `await using` block: complete the leased response if
        it is still pending, then dispose the lease, which writes the entry
        back and releases it, restoring the entries as they were before the
        lease was taken (`unleased`). */
    method RespondUnderLease(interaction: DataLease<string, InteractionWebhookResponse>, delivered: ResponseData,
                             ghost unleased: map<string, Entry<InteractionWebhookResponse>>)
      requires dataService.Valid() && interaction in dataService.leases
      requires !interaction.expired && !interaction.marked && dataService.OnCurrentEntry(interaction)
      requires dataService.data[interaction.key].value == interaction.value
      requires interaction.key in unleased && !unleased[interaction.key].held
      requires dataService.data == unleased[interaction.key := unleased[interaction.key].(held := true)]
      modifies dataService, interaction`expired, interaction.value
      ensures dataService.Valid() && interaction.expired
      ensures dataService.data == unleased
      ensures dataService.disposed == old(dataService.disposed) && dataService.leases == old(dataService.leases)
      ensures interaction.value.response == if old(interaction.value.response).Some? then old(interaction.value.response) else Some(delivered)
    {
      var slot := interaction.Data().value;
      if slot.response.None? {
        slot.response := Some(delivered);
      } // otherwise it is too late: a response was already set.
      var _ := interaction.Dispose();
      assert dataService.data == unleased[interaction.key := unleased[interaction.key]];
    }
  }
}
