/** What the handlers exchange with their callers and with the two external
    services. The completion provider and the mail transport are not part
    of this model: their answers are inputs, one value per call. */
module Http {

  import opened Json
  import opened Text

  /** The `response` an SDK error may carry. */
  datatype ApiResponse = ApiResponse(status: Json, data: Json)

  /** A thrown error: its `message`, its `type` property (`Missing` when it
      has none) and, for provider errors, the HTTP response it came with. */
  datatype ErrorInfo = ErrorInfo(message: string, errType: Json, response: Option<ApiResponse>)

  /** What one chat-completion call gives back: an exception, a completion
      whose `choices[0].message.content` is absent, or one with content. */
  datatype Completion = Threw(error: ErrorInfo) | NoContent | Content(text: string)

  /** The fields an error body carries besides `error`. */
  datatype Extra =
    | NoExtra
    | ReceivedPrompt(value: Json)            // `received`: the rejected prompt
    | Details(text: string)                  // `details`: the error's message
    | Diagnosis(message: string, errType: Json, api: Option<ApiResponse>, solution: seq<string>)

  /** A JSON response body; `Empty` is `res.end()` with no body. */
  datatype Body =
    | Empty
    | Email(email: string)                   // `{ email }`
    | Sent(messageId: string)                // `{ success: true, messageId }`
    | Error(error: string, extra: Extra)      // `{ error, ... }`

  datatype Response = Response(status: nat, body: Body)

  /** `response.ok` in the browser's fetch API. */
  predicate IsOk(r: Response) {
    200 <= r.status < 300
  }

  /** The prompt guard of both generate handlers: missing, falsy, not a
      string, or shorter than five UTF-16 code units once trimmed. The
      three tests reduce to one: the prompt is accepted exactly when it is
      a string whose trim has at least five code units. */
  function RejectsPrompt(prompt: Json): (b: bool)
    ensures b <==> !(prompt.Str? && Utf16Length(Trim(prompt.s)) >= 5)
  {
    !Truthy(prompt) || !prompt.Str? || Utf16Length(Trim(prompt.s)) < 5
  }

  /** The length is JavaScript's: three emoji are six code units, enough
      for the prompt guard, while two letters are not. */
  lemma PromptLengthInCodeUnits()
    ensures !RejectsPrompt(Str("\U{1F600}\U{1F600}\U{1F600}"))
    ensures RejectsPrompt(Str("Hi"))
  {
    var emoji := "\U{1F600}\U{1F600}\U{1F600}";
    assert !IsSpace(emoji[0]) && !IsSpace(emoji[2]);
    TrimmedKept(emoji);
    assert Utf16Length(emoji[2..]) == 2;
    assert Utf16Length(emoji[1..]) == 4;
    var hi := "Hi";
    assert !IsSpace(hi[0]) && !IsSpace(hi[1]);
    TrimmedKept(hi);
  }

  const MethodNotAllowed := "Method not allowed"
  const PromptRequired := "Valid prompt is required (min 5 characters)"
  const GenerationFailed := "AI generation failed"
}
