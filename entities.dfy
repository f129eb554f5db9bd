/**
 * The entity-extraction route (`POST /api/extract-entities`): it checks for an OpenAI key, skips
 * texts under 50 characters, sends the first 3000 characters to the model, cleans the reply up to a
 * JSON object and parses it. `JSON.parse` is a parameter: it either fails (`None`) or yields a value.
 */
module Entities {
  import opened Options
  import opened Strings
  import opened Provider
  import opened ReplyCleanup

  /** Below this many characters the route does not call the model. */
  const MinLength: nat := 50

  /** At most this many characters of the summaries are sent. */
  const MaxSent: nat := 3000

  /** `await request.json()`: the body does not parse, or it parses and `summaries` may be missing. */
  datatype Request = MalformedBody | EntitiesBody(summaries: Option<string>)

  /** The route's replies: 400 `{error: "API key missing"}`, 200 `{entities}`, 200 `{entities: {}}` and
      500 `{error: "Failed to extract entities"}`. */
  datatype Response<J> = ApiKeyMissing | Extracted(entities: J) | NoEntities | ExtractionFailed

  /** `!summaries || summaries.length < 50`: nothing worth sending. */
  predicate TooShort(summaries: Option<string>) {
    summaries.None? || |summaries.value| < MinLength
  }

  /** The route. `complete` answers the user message (the system prompt and model are fixed), and
      `parse` is `JSON.parse`. `sent` is the user message when the model is called. */
  method Post<J>(settings: Settings, request: Request, complete: string -> Completion,
                 parse: string -> Option<J>)
    returns (response: Response<J>, sent: Option<string>)
    ensures settings.SettingsUnavailable? ==> response == ExtractionFailed && sent == None
    ensures settings.Settings? && KeyMissing(settings.openaiApiKey) ==>
      response == ApiKeyMissing && sent == None
    ensures response == ApiKeyMissing <==> settings.Settings? && KeyMissing(settings.openaiApiKey)
    ensures sent.Some? <==> HasKey(settings) && request.EntitiesBody? && !TooShort(request.summaries)
    ensures sent.Some? ==>
      sent.value == Truncate(request.summaries.value, MaxSent) && |sent.value| <= MaxSent
    ensures HasKey(settings) && request.MalformedBody? ==> response == ExtractionFailed
    ensures HasKey(settings) && request.EntitiesBody? && TooShort(request.summaries) ==> response == NoEntities
    ensures sent.Some? ==>
      var reply := complete(sent.value);
      if reply.RequestFailed? || ContentOrEmpty(reply.content) == "" then response == ExtractionFailed
      else
        var parsed := parse(CleanJson(reply.content.value));
        if parsed.None? then response == NoEntities else response == Extracted(parsed.value)
  {
    sent := None;
    if settings.SettingsUnavailable? {
      return ExtractionFailed, sent;
    }
    if KeyMissing(settings.openaiApiKey) {
      return ApiKeyMissing, sent;
    }
    if request.MalformedBody? {
      return ExtractionFailed, sent;
    }
    var summaries := request.summaries;
    if TooShort(summaries) {
      return NoEntities, sent;
    }
    var trimmedSummaries := Truncate(summaries.value, MaxSent);
    sent := Some(trimmedSummaries);
    var reply := complete(trimmedSummaries);
    if reply.RequestFailed? || ContentOrEmpty(reply.content) == "" {
      return ExtractionFailed, sent;
    }
    var jsonContent := ExtractJson(reply.content.value);
    var entities := parse(jsonContent);
    if entities.None? {
      return NoEntities, sent;
    }
    response := Extracted(entities.value);
  }
}
