/** The serverless `generate-email` handler: one model, one call, no
    fallback and no trimming of the answer. `ask(m)` is what the
    chat-completion call with model id `m` gives back. */
module GenerateEmail {

  import opened Json
  import opened Text
  import opened Http

  /** The only model this handler uses. */
  const Model := "llama3-8b-8192"

  const InvalidStructure := "Invalid response structure from Groq API"

  /** The response, and the model ids passed to the provider. */
  datatype Handled = Handled(response: Response, calls: seq<string>)

  /** The handler. Every method but POST, OPTIONS included, gets 405 before
      the body is read; a rejected prompt gets 400; otherwise the model is
      asked once and truthy content is returned as it came, while a missing
      or empty content and a thrown error both become 500. */
  function HandleGenerate(verb: string, prompt: Json, ask: string -> Completion): (h: Handled)
    ensures verb != "POST" ==> h == Handled(Response(405, Error(MethodNotAllowed, NoExtra)), [])
    ensures verb == "POST" && RejectsPrompt(prompt) ==>
      h == Handled(Response(400, Error(PromptRequired, NoExtra)), [])
    ensures verb == "POST" && !RejectsPrompt(prompt) ==> h.calls == [Model]
    ensures h.response.status == 200 <==>
      verb == "POST" && prompt.Str? && Utf16Length(Trim(prompt.s)) >= 5 &&
      ask(Model).Content? && ask(Model).text != []
    ensures h.response.status == 200 ==> h.response.body == Email(ask(Model).text)
    ensures h.calls != [] && ask(Model).Threw? ==>
      h.response == Response(500, Error(GenerationFailed, Details(ask(Model).error.message)))
    ensures h.calls != [] && !ask(Model).Threw? && h.response.status != 200 ==>
      h.response == Response(500, Error(GenerationFailed, Details(InvalidStructure)))
  {
    if verb != "POST" then Handled(Response(405, Error(MethodNotAllowed, NoExtra)), [])
    else if RejectsPrompt(prompt) then Handled(Response(400, Error(PromptRequired, NoExtra)), [])
    else
      var response :=
        match ask(Model)
        case Threw(e) => Response(500, Error(GenerationFailed, Details(e.message)))
        case NoContent => Response(500, Error(GenerationFailed, Details(InvalidStructure)))
        case Content(text) =>
          if text == [] then Response(500, Error(GenerationFailed, Details(InvalidStructure)))
          else Response(200, Email(text));
      Handled(response, [Model])
  }
}
