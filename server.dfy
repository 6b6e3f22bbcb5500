/** The `POST /api/generate-email` route of the Express server: prompt
    validation, the model-fallback loop and the mapping of its result to an
    HTTP response. The completion provider is the parameter `ask`: `ask(m)`
    is what the chat-completion call with model id `m` gives back for this
    request's prompt. */
module Server {

  import opened Json
  import opened Text
  import opened Http

  /** The fallback order, most preferred first. */
  const Models: seq<string> := ["llama3-8b-8192", "llama3-70b-8192", "mixtral-8x7b-32768"]

  /** The error thrown when no model threw but none gave usable content. */
  const AllModelsFailed := ErrorInfo("All models failed to generate content", Missing, None)

  /** The `solution` hints of every 500 response from this route. */
  const Solution: seq<string> := [
    "1. Verify GROQ_API_KEY in .env file",
    "2. Check account status at console.groq.com",
    "3. Try a simpler/shorter prompt",
    "4. Ensure internet connectivity"
  ]

  /** What the fallback produces: the email body, or the error to report. */
  datatype Generation = Generated(email: string) | Failed(error: ErrorInfo)

  /** A completion the loop accepts: its content is truthy (non-empty). */
  predicate Hit(c: Completion) {
    c.Content? && c.text != []
  }

  /** The position of the first model whose completion has truthy content,
      or `|models|` when there is none. */
  function FirstHit(models: seq<string>, ask: string -> Completion): (k: nat)
    ensures k <= |models|
    ensures forall j :: 0 <= j < k ==> !Hit(ask(models[j]))
    ensures k < |models| ==> Hit(ask(models[k]))
  {
    if models == [] then 0
    else if Hit(ask(models[0])) then 0
    else 1 + FirstHit(models[1..], ask)
  }

  /** The error of the last model in `models` whose call threw, if any. */
  function LastThrown(models: seq<string>, ask: string -> Completion): Option<ErrorInfo> {
    if models == [] then None
    else
      match ask(models[|models| - 1])
      case Threw(e) => Some(e)
      case _ => LastThrown(models[..|models| - 1], ask)
  }

  /** After the loop: fail with the last thrown error, or with the generic
      one, when the kept content is empty; succeed with it otherwise. */
  function Settle(emailContent: string, lastError: Option<ErrorInfo>): (g: Generation)
    ensures g.Generated? <==> emailContent != []
    ensures g.Generated? ==> g.email == emailContent
    ensures g.Failed? && lastError.Some? ==> g.error == lastError.value
    ensures g.Failed? && lastError.None? ==> g.error == AllModelsFailed
  {
    if emailContent == [] then
      Failed(match lastError case Some(e) => e case None => AllModelsFailed)
    else Generated(emailContent)
  }

  /** The reference outcome of trying `models` in order: the loop stops at
      the first truthy content, keeps it trimmed and keeps the last error
      thrown before it. */
  function Fallback(models: seq<string>, ask: string -> Completion): Generation {
    var k := FirstHit(models, ask);
    Settle(if k < |models| then Trim(ask(models[k]).text) else [], LastThrown(models[..k], ask))
  }

  /** The loop over the models: each is asked once, in order, until one
      returns truthy content. `calls` lists the model ids passed to the
      provider. */
  method RunFallback(models: seq<string>, ask: string -> Completion)
    returns (calls: seq<string>, emailContent: string, lastError: Option<ErrorInfo>)
    ensures var k := FirstHit(models, ask);
      calls == models[..if k < |models| then k + 1 else k] &&
      emailContent == (if k < |models| then Trim(ask(models[k]).text) else []) &&
      lastError == LastThrown(models[..k], ask)
  {
    calls, emailContent, lastError := [], [], None;
    var i := 0;
    while i < |models|
      invariant i <= |models| && i <= FirstHit(models, ask)
      invariant calls == models[..i]
      invariant emailContent == []
      invariant lastError == LastThrown(models[..i], ask)
    {
      var model := models[i];
      calls := calls + [model];
      match ask(model) {
        case Threw(e) =>
          lastError := Some(e);
        case NoContent =>
        case Content(text) =>
          if text != [] {
            emailContent := Trim(text);
            break;
          }
      }
      assert models[..i + 1][..i] == models[..i];
      i := i + 1;
    }
  }

  /** The 500 body for a failed generation: the fixed error text, the
      error's message, its type (`"unknown"` when it has none) and the
      provider's response when the error carries one. */
  function Diagnose(e: ErrorInfo): (b: Body)
    ensures b.Error? && b.error == GenerationFailed
    ensures b.extra.Diagnosis? && b.extra.message == e.message && b.extra.api == e.response
    ensures Truthy(e.errType) ==> b.extra.errType == e.errType
    ensures !Truthy(e.errType) ==> b.extra.errType == Str("unknown")
    ensures b.extra.solution == Solution
  {
    Error(GenerationFailed,
          Diagnosis(e.message, if Truthy(e.errType) then e.errType else Str("unknown"), e.response, Solution))
  }

  /** The route handler. A rejected prompt gets 400 before any model is
      asked; otherwise the models are tried in the fixed order, each at most
      once, and the outcome of `Fallback` becomes 200 `{ email }` or 500. */
  method HandleGenerate(prompt: Json, ask: string -> Completion) returns (calls: seq<string>, res: Response)
    ensures RejectsPrompt(prompt) ==>
      calls == [] && res == Response(400, Error(PromptRequired, ReceivedPrompt(prompt)))
    ensures !RejectsPrompt(prompt) ==>
      (var k := FirstHit(Models, ask); calls == Models[..if k < |Models| then k + 1 else k]) &&
      match Fallback(Models, ask)
      case Generated(email) => res == Response(200, Email(email))
      case Failed(e) => res == Response(500, Diagnose(e))
    ensures forall i, j :: 0 <= i < j < |calls| ==> calls[i] != calls[j]
  {
    if RejectsPrompt(prompt) {
      return [], Response(400, Error(PromptRequired, ReceivedPrompt(prompt)));
    }
    var emailContent, lastError;
    calls, emailContent, lastError := RunFallback(Models, ask);
    match Settle(emailContent, lastError)
    case Generated(email) =>
      res := Response(200, Email(email));
    case Failed(e) =>
      res := Response(500, Diagnose(e));
  }

  /** The declarative reading of `LastThrown`: it is the error of a call
      that threw after which no call threw, and None when no call threw. */
  lemma {:induction false} LastThrownIsLast(models: seq<string>, ask: string -> Completion)
    ensures LastThrown(models, ask).None? <==>
      forall i :: 0 <= i < |models| ==> !ask(models[i]).Threw?
    ensures LastThrown(models, ask).Some? ==>
      exists i :: 0 <= i < |models| && ask(models[i]) == Threw(LastThrown(models, ask).value) &&
        forall j :: i < j < |models| ==> !ask(models[j]).Threw?
  {
    if models != [] {
      var n := |models| - 1;
      var init := models[..n];
      LastThrownIsLast(init, ask);
      assert forall i :: 0 <= i < n ==> init[i] == models[i];
      if !ask(models[n]).Threw? && LastThrown(init, ask).Some? {
        var i :| 0 <= i < n && ask(init[i]) == Threw(LastThrown(init, ask).value) &&
          forall j :: i < j < n ==> !ask(init[j]).Threw?;
        assert ask(models[i]) == Threw(LastThrown(models, ask).value);
      }
    }
  }

  /** A call that threw sets the last error; a completion, with or without
      content, leaves it as it was. */
  lemma {:induction false} LastThrownStep(models: seq<string>, m: string, ask: string -> Completion)
    ensures ask(m).Threw? ==> LastThrown(models + [m], ask) == Some(ask(m).error)
    ensures !ask(m).Threw? ==> LastThrown(models + [m], ask) == LastThrown(models, ask)
  {
    assert (models + [m])[..|models|] == models;
  }

  /** The result when some model gives truthy content: the first such
      model, `k`, decides. Non-blank content succeeds with its trim; blank
      content still stops the loop, and the failure carries the last error
      thrown by a model before `k`, or the generic error. */
  lemma FallbackStopsAtFirstContent(models: seq<string>, ask: string -> Completion, k: nat)
    requires k < |models| && Hit(ask(models[k]))
    requires forall j :: 0 <= j < k ==> !Hit(ask(models[j]))
    ensures !Blank(ask(models[k]).text) ==>
      Fallback(models, ask) == Generated(Trim(ask(models[k]).text))
    ensures Blank(ask(models[k]).text) ==>
      Fallback(models, ask) == Failed(
        match LastThrown(models[..k], ask) case Some(e) => e case None => AllModelsFailed)
  {
  }

  /** The result when no model gives truthy content: failure with the last
      thrown error, which need not be the last model's, or the generic
      error when nothing threw. */
  lemma FallbackWithoutContent(models: seq<string>, ask: string -> Completion)
    requires forall j :: 0 <= j < |models| ==> !Hit(ask(models[j]))
    ensures Fallback(models, ask) == Failed(
      match LastThrown(models, ask) case Some(e) => e case None => AllModelsFailed)
  {
    assert models[..|models|] == models;
  }

  /** A generated email is never empty and never starts or ends with
      whitespace, and it is the trim of some model's content. */
  lemma GeneratedIsTrimmedContent(models: seq<string>, ask: string -> Completion)
    requires Fallback(models, ask).Generated?
    ensures var email := Fallback(models, ask).email;
      email != [] && Trimmed(email) &&
      exists k :: 0 <= k < |models| && ask(models[k]).Content? && email == Trim(ask(models[k]).text)
  {
    var k := FirstHit(models, ask);
    assert k < |models|;
  }

  /** Whitespace-only content stops the loop yet fails: with the first
      model throwing, the second answering blanks and the third able to
      write an email, the third is never asked and the first model's error
      is reported. */
  lemma BlankContentHidesLaterModel(e: ErrorInfo)
    ensures var ask := (m: string) =>
      if m == Models[0] then Threw(e)
      else if m == Models[1] then Content(" \n ")
      else Content("Dear team, the report is attached.");
      FirstHit(Models, ask) == 1 && Fallback(Models, ask) == Failed(e)
  {
    var ask := (m: string) =>
      if m == Models[0] then Threw(e)
      else if m == Models[1] then Content(" \n ")
      else Content("Dear team, the report is attached.");
    FallbackStopsAtFirstContent(Models, ask, 1);
    assert Blank(" \n ");
    assert Models[..1] == [Models[0]];
  }

  /** The reported error is the last one thrown, not the last model's: a
      model that answers without content after a failure leaves that
      failure in place. */
  lemma FailureKeepsEarlierError(e: ErrorInfo)
    ensures var ask := (m: string) => if m == Models[0] then Threw(e) else NoContent;
      Fallback(Models, ask) == Failed(e)
  {
    var ask := (m: string) => if m == Models[0] then Threw(e) else NoContent;
    FallbackWithoutContent(Models, ask);
    LastThrownStep([Models[0]], Models[1], ask);
    LastThrownStep([Models[0], Models[1]], Models[2], ask);
    assert [Models[0]] + [Models[1]] + [Models[2]] == Models;
  }

  /** Two models, the first throwing and the second answering
      "Thanks a lot!": the result is that text. */
  lemma SecondModelRescues(e: ErrorInfo)
    ensures var ask := (m: string) => if m == "m1" then Threw(e) else Content("Thanks a lot!");
      Fallback(["m1", "m2"], ask) == Generated("Thanks a lot!") &&
      LastThrown(["m1", "m2"][..1], ask) == Some(e)
  {
    var ask := (m: string) => if m == "m1" then Threw(e) else Content("Thanks a lot!");
    var text := "Thanks a lot!";
    assert "m1" != "m2" by { assert "m1"[1] != "m2"[1]; }
    assert !IsSpace(text[0]) && !IsSpace(text[|text| - 1]);
    TrimmedKept(text);
    FallbackStopsAtFirstContent(["m1", "m2"], ask, 1);
    assert ["m1", "m2"][..1] == ["m1"];
  }
}
