/** `WebhookInteractionHelper`: handles one interaction received over HTTP.
    It stores a pending response under the interaction's token, hands the
    interaction to the responder dispatcher, waits for the response, removes
    the entry, and returns the payload to serialise together with the file
    streams to upload.

    JSON is abstracted away: the output carries the value that the source
    serialises. The dispatcher is external; it is modelled by the reply
    (if any) that a responder gives through `CreateInteractionResponse`
    before the handler's await resumes. */
module WebhookInteractionHelper {
  import opened Wrappers
  import opened LeaseStore
  import opened InteractionResponse
  import opened WebhookInteractionAPI

  /** `IInteractionCreate`, reduced to what the handler uses. */
  datatype InteractionCreate = InteractionCreate(id: nat, token: string)

  /** The tuple `(json, Optional<IReadOnlyList<Stream>>)` of a successful result. */
  datatype HandlerOutput = HandlerOutput(payload: Response, streams: Option<seq<Stream>>)

  /** A handled interaction, or an await not satisfied when the handler
      runs: the model does not resume it later (the source has no deadline). */
  datatype HandleOutcome = Completed(output: HandlerOutput) | NeverCompletes

  // ---------------------------------------------------------------------
  // Attachment normalisation

  /** The attachment at position `i` after normalisation: a file becomes a
      partial attachment whose ID is its position. */
  function NormalizeAt(attachment: Attachment, i: nat): Attachment
  {
    match attachment
    case File(f) => Partial(PartialAttachment(Some(i), Some(f.name), Some(f.description)))
    case Partial(p) => Partial(p)
  }

  /** The index-aware `Select` of `NormalizeAttachments`. */
  function NormalizeList(userAttachments: seq<Attachment>): (r: seq<Attachment>)
    ensures |r| == |userAttachments|
    ensures forall i | 0 <= i < |r| :: r[i].Partial?
    ensures forall i | 0 <= i < |r| && userAttachments[i].Partial? :: r[i] == userAttachments[i]
    ensures forall i | 0 <= i < |r| && userAttachments[i].File? ::
      r[i].partial == PartialAttachment(Some(i), Some(userAttachments[i].file.name), Some(userAttachments[i].file.description))
  {
    seq(|userAttachments|, i requires 0 <= i < |userAttachments| => NormalizeAt(userAttachments[i], i))
  }

  /** A normalised list holds no file, so normalising it again changes nothing. */
  lemma NormalizeListIdempotent(userAttachments: seq<Attachment>)
    ensures NormalizeList(NormalizeList(userAttachments)) == NormalizeList(userAttachments)
  {
    var once := NormalizeList(userAttachments);
    var twice := NormalizeList(once);
    forall i | 0 <= i < |once|
      ensures twice[i] == once[i]
    {
      assert once[i].Partial?;
    }
  }

  /** Files at different positions receive different attachment IDs. */
  lemma NormalizedFileIdsDistinct(userAttachments: seq<Attachment>, i: nat, j: nat)
    requires i < j < |userAttachments|
    requires userAttachments[i].File? && userAttachments[j].File?
    ensures NormalizeList(userAttachments)[i].partial.id != NormalizeList(userAttachments)[j].partial.id
  {
  }

  /** `NormalizeAttachments`: the response keeps its type; its data becomes
      message data (the given message data, or a default when the data is
      absent or of another kind) whose attachments are the normalised list. */
  function NormalizeAttachments(response: Response, userAttachments: seq<Attachment>): (r: Response)
    ensures r.kind == response.kind
    ensures r.data.Some? && r.data.value.Message?
    ensures r.data.value.message.attachments == Some(NormalizeList(userAttachments))
    ensures response.data.Some? && response.data.value.Message? ==>
      r.data.value.message == response.data.value.message.(attachments := r.data.value.message.attachments)
    ensures !(response.data.Some? && response.data.value.Message?) ==>
      r.data.value.message == DefaultMessageData.(attachments := r.data.value.message.attachments)
  {
    var val := if response.data.Some? && response.data.value.Message? then response.data.value.message else DefaultMessageData;
    response.(data := Some(Message(val.(attachments := Some(NormalizeList(userAttachments))))))
  }

  // ---------------------------------------------------------------------
  // Stream collection

  /** The streams of the file attachments, in list order. */
  function FileStreams(attachments: seq<Attachment>): seq<Stream>
  {
    if attachments == [] then []
    else
      var rest := FileStreams(attachments[..|attachments| - 1]);
      match attachments[|attachments| - 1]
      case File(f) => rest + [f.content]
      case Partial(_) => rest
  }

  /** The positions of the file attachments, in list order. */
  function FileIndices(attachments: seq<Attachment>): seq<nat>
  {
    if attachments == [] then []
    else
      var rest := FileIndices(attachments[..|attachments| - 1]);
      if attachments[|attachments| - 1].File? then rest + [|attachments| - 1] else rest
  }

  /** The k-th stream is the content of the k-th file, and the file
      positions are exactly the positions of the files, increasing. */
  lemma {:induction false} FileIndicesCorrect(attachments: seq<Attachment>)
    ensures |FileIndices(attachments)| == |FileStreams(attachments)|
    ensures forall k | 0 <= k < |FileIndices(attachments)| ::
      && FileIndices(attachments)[k] < |attachments|
      && attachments[FileIndices(attachments)[k]].File?
      && FileStreams(attachments)[k] == attachments[FileIndices(attachments)[k]].file.content
    ensures forall k1, k2 | 0 <= k1 < k2 < |FileIndices(attachments)| ::
      FileIndices(attachments)[k1] < FileIndices(attachments)[k2]
    ensures forall i | 0 <= i < |attachments| && attachments[i].File? :: i in FileIndices(attachments)
  {
    if attachments != [] {
      var n := |attachments| - 1;
      var prefix := attachments[..n];
      FileIndicesCorrect(prefix);
      assert forall i | 0 <= i < n :: prefix[i] == attachments[i];
    }
  }

  /** Without partial attachments, the k-th stream belongs to the attachment
      whose ID is k. */
  lemma {:induction false} FilesOnlyIndicesAreIdentity(attachments: seq<Attachment>)
    requires forall i | 0 <= i < |attachments| :: attachments[i].File?
    ensures |FileIndices(attachments)| == |attachments|
    ensures forall k | 0 <= k < |attachments| :: FileIndices(attachments)[k] == k
  {
    if attachments != [] {
      var n := |attachments| - 1;
      FilesOnlyIndicesAreIdentity(attachments[..n]);
    }
  }

  /** The `foreach` over the attachments that collects the file streams. */
  method CollectStreams(attachments: seq<Attachment>) returns (streams: seq<Stream>)
    ensures streams == FileStreams(attachments)
  {
    streams := [];
    for i := 0 to |attachments|
      invariant streams == FileStreams(attachments[..i])
    {
      assert attachments[..i + 1][..i] == attachments[..i];
      var attachment := attachments[i];
      if !attachment.File? {
        continue;
      }
      streams := streams + [attachment.file.content];
    }
    assert attachments[..|attachments|] == attachments;
  }

  // ---------------------------------------------------------------------
  // The handler's output

  /** What the handler returns for a delivered response: the response itself
      and no streams when attachments are undefined; otherwise the
      normalised response and the file streams. */
  function ExpectedOutput(delivered: ResponseData): HandlerOutput
  {
    match delivered.attachments
    case None => HandlerOutput(delivered.response, None)
    case Some(attachments) =>
      HandlerOutput(NormalizeAttachments(delivered.response, attachments), Some(FileStreams(attachments)))
  }

  /** Undefined attachments: the payload is the response unchanged and there is no stream list. */
  lemma NoAttachmentsNoStreams(delivered: ResponseData)
    requires delivered.attachments.None?
    ensures ExpectedOutput(delivered).streams.None?
    ensures ExpectedOutput(delivered).payload == delivered.response
  {
  }

  /** Defined attachments: every stream is paired with an attachment of the
      payload at the file's position that carries that position as its ID
      and the file's name and description; the streams are the files'
      contents in order. */
  lemma {:induction false} StreamsMatchPayloadAttachments(delivered: ResponseData, k: nat)
    requires delivered.attachments.Some?
    requires k < |FileStreams(delivered.attachments.value)|
    ensures |FileIndices(delivered.attachments.value)| == |FileStreams(delivered.attachments.value)|
    ensures var attachments := delivered.attachments.value;
      var output := ExpectedOutput(delivered);
      var i := FileIndices(attachments)[k];
      && output.streams == Some(FileStreams(attachments))
      && i < |attachments| && attachments[i].File?
      && output.streams.value[k] == attachments[i].file.content
      && output.payload.data.value.message.attachments.value[i]
         == Partial(PartialAttachment(Some(i), Some(attachments[i].file.name), Some(attachments[i].file.description)))
  {
    FileIndicesCorrect(delivered.attachments.value);
  }

  /** The tail of the handler: the result for a delivered response. */
  method BuildOutput(response: ResponseData) returns (output: HandlerOutput)
    ensures output == ExpectedOutput(response)
  {
    if response.attachments.None? {
      return HandlerOutput(response.response, None);
    }
    var attachments := response.attachments.value;
    var streams := CollectStreams(attachments);
    output := HandlerOutput(NormalizeAttachments(response.response, attachments), Some(streams));
  }

  // ---------------------------------------------------------------------
  // The handler

  class WebhookInteractionHelper {
    /** The store of pending responses (`_data`). */
    const data: ResponseStore
    /** The interaction API the responders call back into. */
    const api: DiscordWebhookInteractionAPI

    constructor (data: ResponseStore, api: DiscordWebhookInteractionAPI)
      requires api.dataService == data
      ensures this.data == data && this.api == api
    {
      this.data := data;
      this.api := api;
    }

    /** `HandleInteractionAsync(IInteractionCreate)`. */
    method HandleInteraction(interaction: InteractionCreate, dispatch: Option<ResponseData>) returns (r: HandleOutcome)
      requires api.dataService == data && data.Valid()
      modifies data, SlotOf(data, interaction.token)
      ensures data.Valid()
      // The token was already in use: the add is ignored and the fresh slot
      // is never reachable, so the await never completes. The reply goes to
      // the slot already stored under the token, if that entry is free and
      // its response still pending.
      ensures interaction.token in old(data.data) ==>
        && r == NeverCompletes
        && data.data == old(data.data)
        && data.data[interaction.token].value.response ==
             if dispatch.Some? && !old(data.data[interaction.token].held)
                && old(data.data[interaction.token].value.response).None?
             then dispatch
             else old(data.data[interaction.token].value.response)
      ensures r == NeverCompletes ==> data.disposed == old(data.disposed)
      // Nobody responded: the await never completes and the entry stays.
      ensures interaction.token !in old(data.data) && dispatch.None? ==>
        && r == NeverCompletes
        && interaction.token in data.data
        && fresh(data.data[interaction.token].value)
        && !data.data[interaction.token].held
        && data.data[interaction.token].value.response == None
        && data.data - {interaction.token} == old(data.data)
      // A responder replied: its response is returned and the entry removed.
      ensures interaction.token !in old(data.data) && dispatch.Some? ==>
        && r == Completed(ExpectedOutput(dispatch.value))
        && data.data == old(data.data)
        && |data.disposed| == |old(data.disposed)| + 1
        && data.disposed[..|old(data.disposed)|] == old(data.disposed)
        && data.disposed[|old(data.disposed)|].response == dispatch
    {
      ghost var entries, lock := data.data, data.nextLock;
      var slot := new InteractionWebhookResponse();
      // The result of the add is ignored.
      var added := data.TryAddValue(interaction.token, slot);
      assert added ==> data.data[interaction.token].value == slot && SlotOf(data, interaction.token) == {slot};

      if dispatch.Some? {
        var _ := api.CreateInteractionResponse(interaction.token, dispatch.value.response, dispatch.value.attachments);
        assert added ==> slot.response == dispatch;
      }
      assert !added || dispatch.None? ==> slot.response == None;

      if slot.response.None? {
        return NeverCompletes;
      }
      var response := slot.response.value;

      ghost var before := data.disposed;
      var _ := data.Delete(interaction.token);
      assert data.disposed == before + [slot];
      RemoveAdded(entries, interaction.token, Entry(lock, false, slot));

      var output := BuildOutput(response);
      r := Completed(output);
    }
  }
}
