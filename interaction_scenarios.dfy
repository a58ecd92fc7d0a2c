/** Sequences of calls through the interaction API and the request
    handler, each stated for all tokens and responses: the behaviour their
    tests check, and the single assignment of a response. */
module InteractionScenarios {
  import opened Wrappers
  import opened LeaseStore
  import opened InteractionResponse
  import opened WebhookInteractionAPI
  import opened WebhookInteractionHelper

  /** A pending response stored under a token is completed by the API call,
      which succeeds. */
  method ApiSetsResponse(token: string, response: Response) returns (result: ApiResult, delivered: Option<ResponseData>)
    ensures result == Succeeded && delivered == Some(ResponseData(response, None))
  {
    var store := new InMemoryDataStore<string, InteractionWebhookResponse>();
    var slot := new InteractionWebhookResponse();
    var _ := store.TryAddValue(token, slot);
    var api := new DiscordWebhookInteractionAPI(store);
    result := api.CreateInteractionResponse(token, response, None);
    delivered := slot.response;
  }

  /** The API call fails for a token that has no pending response. */
  method ApiFailsForUnknownToken(token: string, response: Response) returns (result: ApiResult)
    ensures result == Failed(NotFoundError)
  {
    var store := new InMemoryDataStore<string, InteractionWebhookResponse>();
    var api := new DiscordWebhookInteractionAPI(store);
    result := api.CreateInteractionResponse(token, response, None);
  }

  /** A second response for the same interaction also succeeds but leaves
      the first one in place. */
  method SecondResponseIgnored(token: string, first: Response, second: Response, attachments: Option<seq<Attachment>>)
    returns (result: ApiResult, delivered: Option<ResponseData>)
    ensures result == Succeeded && delivered == Some(ResponseData(first, None))
  {
    var store := new InMemoryDataStore<string, InteractionWebhookResponse>();
    var slot := new InteractionWebhookResponse();
    var _ := store.TryAddValue(token, slot);
    var api := new DiscordWebhookInteractionAPI(store);
    var _ := api.CreateInteractionResponse(token, first, None);
    result := api.CreateInteractionResponse(token, second, attachments);
    delivered := slot.response;
  }

  /** A responder that replies without attachments: the handler returns the
      response as it is and no stream list, and removes the entry. */
  method HandleWithoutAttachments(interaction: InteractionCreate, response: Response)
    returns (outcome: HandleOutcome, stillStored: bool)
    ensures outcome == Completed(HandlerOutput(response, None)) && !stillStored
  {
    var store := new InMemoryDataStore<string, InteractionWebhookResponse>();
    var api := new DiscordWebhookInteractionAPI(store);
    var helper := new WebhookInteractionHelper(store, api);
    outcome := helper.HandleInteraction(interaction, Some(ResponseData(response, None)));
    stillStored := interaction.token in store.data;
  }

  /** A responder that replies with one file and no message data: the
      payload gets default message data whose only attachment is the file,
      with ID 0, and the stream list holds the file's content. */
  method HandleWithOneFile(interaction: InteractionCreate, kind: CallbackType, file: FileData)
    returns (outcome: HandleOutcome)
    ensures outcome == Completed(HandlerOutput(
      Response(kind, Some(Message(DefaultMessageData.(attachments :=
        Some([Partial(PartialAttachment(Some(0), Some(file.name), Some(file.description)))]))))),
      Some([file.content])))
  {
    var store := new InMemoryDataStore<string, InteractionWebhookResponse>();
    var api := new DiscordWebhookInteractionAPI(store);
    var helper := new WebhookInteractionHelper(store, api);
    outcome := helper.HandleInteraction(interaction, Some(ResponseData(Response(kind, None), Some([File(file)]))));
    assert FileStreams([File(file)]) == [file.content] by {
      assert [File(file)][..0] == [];
    }
    var normalized := NormalizeList([File(file)]);
    assert normalized == [Partial(PartialAttachment(Some(0), Some(file.name), Some(file.description)))] by {
      assert |normalized| == 1 && normalized[0].Partial?;
    }
  }

  /** Nobody responds: the handler waits forever and the entry is left behind. */
  method HandleWithoutResponder(interaction: InteractionCreate) returns (outcome: HandleOutcome, stillStored: bool)
    ensures outcome == NeverCompletes && stillStored
  {
    var store := new InMemoryDataStore<string, InteractionWebhookResponse>();
    var api := new DiscordWebhookInteractionAPI(store);
    var helper := new WebhookInteractionHelper(store, api);
    outcome := helper.HandleInteraction(interaction, None);
    stillStored := interaction.token in store.data;
  }

  /** A second interaction under the token of one still pending: the add is
      ignored, so the second reply lands in the earlier request's slot, and
      the second handler's own slot is never satisfied. The earlier handler
      found its slot pending when it ran; the model does not resume it, while
      the source would, answering the earlier request with the second reply. */
  method ReusedTokenAnswersEarlierRequest(interaction: InteractionCreate, reply: ResponseData)
    returns (first: HandleOutcome, second: HandleOutcome, earlier: Option<ResponseData>)
    ensures first == NeverCompletes && second == NeverCompletes && earlier == Some(reply)
  {
    var store := new InMemoryDataStore<string, InteractionWebhookResponse>();
    var api := new DiscordWebhookInteractionAPI(store);
    var helper := new WebhookInteractionHelper(store, api);
    first := helper.HandleInteraction(interaction, None);
    second := helper.HandleInteraction(interaction, Some(reply));
    earlier := store.data[interaction.token].value.response;
  }
}
