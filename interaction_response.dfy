/** The Discord objects the webhook layer passes around, reduced to the
    fields it reads or writes, and the pending-response slot of
    `InteractionResponseData.cs`. Streams are opaque handles; JSON is
    represented by the value that would be serialised. */
module InteractionResponse {
  import opened Wrappers

  /** An uploaded file's stream, by identity. */
  datatype Stream = Stream(id: nat)

  /** `FileData(Name, Content, Description)`; Remora's default description
      is "No description set.". */
  datatype FileData = FileData(name: string, content: Stream, description: string)

  /** `IPartialAttachment`: every field is an `Optional`; the ID is a snowflake. */
  datatype PartialAttachment = PartialAttachment(id: Option<nat>, filename: Option<string>, description: Option<string>)

  /** `OneOf<FileData, IPartialAttachment>`. */
  datatype Attachment = File(file: FileData) | Partial(partial: PartialAttachment)

  /** `InteractionCallbackType`. */
  datatype CallbackType =
    | Pong
    | ChannelMessageWithSource
    | DeferredChannelMessageWithSource
    | DeferredUpdateMessage
    | UpdateMessage
    | ApplicationCommandAutocompleteResult
    | Modal

  /** `InteractionMessageCallbackData`: the attachments and a representative
      selection of the other optional fields. */
  datatype MessageCallbackData = MessageCallbackData(
    isTTS: Option<bool>,
    content: Option<string>,
    flags: Option<nat>,
    attachments: Option<seq<Attachment>>)

  /** `new InteractionMessageCallbackData()`: every field left undefined. */
  const DefaultMessageData := MessageCallbackData(None, None, None, None)

  /** `OneOf<IInteractionMessageCallbackData, IInteractionAutocompleteCallbackData,
      IInteractionModalCallbackData>`. */
  datatype CallbackData =
    | Message(message: MessageCallbackData)
    | Autocomplete(choices: seq<string>)
    | ModalData(customID: string, title: string)

  /** `InteractionResponse(Type, Data)`. */
  datatype Response = Response(kind: CallbackType, data: Option<CallbackData>)

  /** `InteractionWebhookResponseData(Response, Attachments)`. */
  datatype ResponseData = ResponseData(response: Response, attachments: Option<seq<Attachment>>)

  /** `InteractionWebhookResponse`: a record holding one `TaskCompletionSource`,
      shared by reference between the store and the request handler. The
      source is modelled as its result slot: `None` while pending. */
  class InteractionWebhookResponse {
    var response: Option<ResponseData>

    constructor ()
      ensures response == None
    {
      response := None;
    }
  }
}
