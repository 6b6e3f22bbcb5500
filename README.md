# ai-email-sender in Dafny

A model of the request-handling core of ai-email-sender, a small web application. A browser form sends a
prompt to a server. The server asks a hosted language model (Groq) to write an email body. The form then
sends that body to a list of recipients through an SMTP transport (nodemailer).

The model covers four pieces of code:

- **Server** (`server.dfy`): the `POST /api/generate-email` route of the Express server. It validates the
  prompt, then tries three models in a fixed order, and maps the outcome to 200 or 500. The fallback loop
  is a method with a `while` loop and invariants. It is proved against the reference function `Fallback`.
- **SendEmail** (`send_email.dfy`): the serverless `send-email` handler. It covers method dispatch, the
  recipient and content guards, the mail fields handed to the transport, and the reply.
- **GenerateEmail** (`generate_email.dfy`): the serverless single-model `generate-email` handler.
- **Client** (`client.dfy`): the browser form. It covers the recipient parse
  `split(',').map(trim).filter(r => r)` and the two guards. The class `App` holds the form's state, and its
  methods `GenerateEmail` and `SendEmail` update that state step by step.

Three support modules hold shared definitions:

- `Text` (`text.dfy`): JavaScript's `trim`, one-character `split`, `join` and the newline-to-`<br>` rewrite.
- `Json` (`json.dfy`): request values with JavaScript truthiness and `join`'s rendering of elements.
- `Http` (`http.dfy`): responses, provider outcomes and the shared prompt guard.

`Flows` (`flows.dfy`) relates the pieces. It proves what the server does with what the client parses, and
whether a generated email can be sent on.

Lengths are JavaScript's `length`: strings are sequences of Unicode characters, and `Text.Utf16Length`
counts a character beyond U+FFFF as two code units, as JavaScript does.

Every external call is a function parameter, one answer per call:

- `ask(m)`: the chat completion for model `m`.
- `transport(mail)`: what `sendMail` yields.
- `post(x)`: what `fetch` yields.

The handlers return the calls they made, or the mail they handed on. So "the provider is not asked" and
"the transport is not invoked" are stated and proved.

Three behaviours of the code are easy to misread:

- The fallback loop does not record a missing or empty completion as an error. A failure reports the last
  error *thrown*, not the last model's error. The generic "All models failed to generate content" error
  appears only when nothing threw (`Server.FallbackWithoutContent`, `Server.FailureKeepsEarlierError`).
- Whitespace-only content counts as content. The loop stops on it, yet the route fails
  (`Server.BlankContentHidesLaterModel`).
- The generate route accepts content of any non-empty length after trimming. The send handler demands ten
  UTF-16 code units. So a generated email is not always sendable (`Flows.ShortGeneratedEmailIsRefused`).

## Model

| member | source | states |
|---|---|---|
| Http.RejectsPrompt | server/server.js:50 | the prompt guard (missing, falsy, not a string, or a trim under 5 in JavaScript's `length`) rejects exactly the values that are not strings whose trim has at least 5 UTF-16 code units |
| Http.PromptLengthInCodeUnits | server/server.js:50 | the length is counted in UTF-16 code units: three emoji (six units) pass the prompt guard, "Hi" does not |
| Server.FirstHit | server/server.js:87-91 | the position of the first model whose completion has truthy content: all earlier ones have none, and `|models|` when no model has any |
| Server.Settle | server/server.js:98-102 | empty kept content fails with the last thrown error, or with the generic error when none was thrown; non-empty content succeeds with exactly that text |
| Server.RunFallback | server/server.js:65-96 | the loop asks exactly the models up to and including the first with truthy content, in order, and keeps that content trimmed; `lastError` is the last error thrown by the models asked before it (the loop invariants tie every iteration to `FirstHit`/`LastThrown`) |
| Server.Diagnose | server/server.js:103-126 | a failure's body carries "AI generation failed", the error's message, its type when truthy and "unknown" otherwise, the provider response when the error has one, and the four fixed solution hints |
| Server.HandleGenerate | server/server.js:46-128 | a rejected prompt gets 400 with `received` and no model is asked; otherwise exactly the models of the fixed order up to and including the first with truthy content are asked (all three when none has any), none twice, and the response is 200 with the fallback's email or 500 with its diagnosed error |
| Server.LastThrownIsLast | server/server.js:92-95 | the recorded error is that of a call that threw with no later call throwing; it is absent exactly when no call threw |
| Server.LastThrownStep | server/server.js:92-95 | a thrown call replaces the recorded error; a completion with or without content leaves it unchanged |
| Server.FallbackStopsAtFirstContent | server/server.js:87-100 | the first model with truthy content decides: non-blank content gives its trim, blank content fails with the last earlier thrown error or the generic error |
| Server.FallbackWithoutContent | server/server.js:96-99 | when no model gives content, the failure carries the last thrown error, or the generic error when nothing threw |
| Server.GeneratedIsTrimmedContent | server/server.js:88 | a generated email is non-empty, trimmed, and the trim of some model's content |
| Server.BlankContentHidesLaterModel | server/server.js:87-99 | whitespace-only content from the second model stops the loop before a third model that could write the email, and the first model's error is reported |
| Server.FailureKeepsEarlierError | server/server.js:92-99 | a model answering without content after a thrown error leaves that error as the reported one |
| Server.SecondModelRescues | server/server.js:69-102 | after a first model throws, a second model's content is the result |
| SendEmail.RejectsRecipients | server/api/send-email.js:22 | the recipient guard rejects exactly the values that are not non-empty arrays; elements are not looked at |
| SendEmail.RejectsContent | server/api/send-email.js:26 | the content guard rejects exactly the values that are not strings whose trim has at least 10 UTF-16 code units |
| SendEmail.SubjectOrDefault | server/api/send-email.js:43 | a truthy subject is kept as given; a falsy one, "" included, becomes "AI Generated Email" |
| SendEmail.BuildMail | server/api/send-email.js:40-45 | the sender is the configured account; `to` is the rendered recipients joined with ", "; the subject is the given one or its default, so always truthy; the html is the content with each line feed turned into `<br>`, so it holds no line feed |
| SendEmail.Reply | server/api/send-email.js:47-56 | a delivery gives 200 with its message id; a transport error gives 500 "Email sending failed" with the error's message |
| SendEmail.HandleSend | server/api/send-email.js:4-58 | OPTIONS gets 200 with no body; other non-POST methods get 405; recipients are checked before content; the transport is invoked exactly when both guards pass, with the built mail, and its answer decides the response |
| SendEmail.HtmlKeepsSegments | server/api/send-email.js:44 | the html is the content's line-feed-separated segments joined by `<br>`; every other character, "\r" included, is kept in order |
| SendEmail.ToListsRecipients | server/api/send-email.js:42 | string recipients appear in `to` verbatim, in order, duplicates kept, separated by ", " |
| SendEmail.ElementsNotValidated | server/api/send-email.js:22-24 | `[null, ""]` passes the guard and the transport is asked to send to ", " with the default subject |
| GenerateEmail.HandleGenerate | server/api/generate-email.js:3-48 | every non-POST method, OPTIONS included, gets 405 with no model asked; a rejected prompt gets 400; otherwise exactly "llama3-8b-8192" is asked once; 200 exactly when the content is non-empty, returned untrimmed; a thrown error gives 500 with its message; missing or empty content gives 500 "Invalid response structure from Groq API" |
| Client.ParsedRecipientsClean | client/src/App.jsx:71 | every parsed recipient is non-empty, has no whitespace at either end and holds no comma |
| Client.DropEmptyMembers | client/src/App.jsx:71 | the filter keeps only non-empty pieces of its input |
| Client.DropEmptySubsequence | client/src/App.jsx:71 | the filter keeps the order of the pieces it keeps |
| Client.DropEmptyCounts | client/src/App.jsx:71 | the filter keeps every non-empty piece as often as it occurs |
| Client.DropEmptyNone | client/src/App.jsx:71 | the filter yields nothing exactly when every piece is empty |
| Client.ParseKeepsPieceOrder | client/src/App.jsx:71 | the parsed recipients are the trimmed comma-separated pieces with the empty ones dropped, in input order and with their multiplicities |
| Client.SplitPiecesBlank | client/src/App.jsx:71 | every piece of a split is blank exactly when the input holds only separators and whitespace |
| Client.ParseEmptyIffCommasAndSpace | client/src/App.jsx:71 | the input parses to no recipient exactly when it holds only commas and whitespace |
| Client.GenerateGuard | client/src/App.jsx:17-20 | no request goes out exactly when the prompt is blank, and the status then says "Please enter a prompt" |
| Client.SendGuard | client/src/App.jsx:52-60 | blank recipients are reported before blank content; a request goes out exactly when neither is blank |
| Client.Decimal | client/src/App.jsx:37 | the status code renders as a non-empty string of decimal digits, without a leading zero unless it is "0", whose value is the status |
| Client.EmptyOkIsFailure | client/src/App.jsx:35-45 | a 2xx answer without a body is a failure, reported with the parse error of `response.json()` |
| Client.App.constructor | client/src/App.jsx:4-9 | the form starts empty, with the default subject and not loading |
| Client.App.GenerateEmail | client/src/App.jsx:16-49 | a blank prompt only sets the status; otherwise the prompt is posted, a 2xx answer with a JSON body stores the returned email and clears the status, any other outcome (a network error, a non-2xx status, or a body `response.json()` cannot parse) reports its message; the form ends idle |
| Client.App.SendEmail | client/src/App.jsx:51-101 | blank recipients, then blank content, only set the status; otherwise the parsed recipients, the subject and the email are posted, and the status reports success for a 2xx answer with a JSON body and the failure's message otherwise; the form ends idle and its fields are kept |
| Text.Trim | server/server.js:88 | the trim has no whitespace at either end, is no longer than its input, and is empty exactly when the input is blank |
| Text.TrimIsMiddle | server/server.js:88 | the trim is the input with a blank prefix and a blank suffix removed |
| Text.Utf16LengthOfBmp | server/server.js:50 | a string with no character beyond U+FFFF has as many UTF-16 code units as characters |
| Text.Utf16LengthAppend | server/api/send-email.js:26 | the code-unit length of a concatenation is the sum of the lengths |
| Text.TrimmedIsFixed | server/server.js:88 | a string is its own trim exactly when neither end is whitespace |
| Text.TrimIdempotent | server/server.js:88 | trimming twice is trimming once |
| Text.TrimKeepsAbsent | client/src/App.jsx:71 | trimming introduces no character, so comma-free pieces stay comma-free |
| Text.Split | client/src/App.jsx:71 | a one-character split yields at least one piece and no piece holds the separator |
| Text.SplitJoin | client/src/App.jsx:71 | joining the pieces of a split with the separator gives back the input |
| Text.NewlinesToBreaks | server/api/send-email.js:44 | the rewritten text holds no line feed |
| Text.BreaksAreJoinedLines | server/api/send-email.js:44 | the rewrite is the line-feed split joined with `<br>` |
| Text.BreaksKeepPlainText | server/api/send-email.js:44 | text without line feeds is not changed |
| Json.ItemTexts | server/api/send-email.js:42 | `join` renders one text per element, in order: `undefined` and `null` as the empty string, a string as itself, anything else as `String(v)` |
| Json.StrArray | client/src/App.jsx:70-74 | a list of strings goes into the request body as an array of those strings, in order |
| Flows.ParseUndoesJoin | client/src/App.jsx:71 | clean recipients joined with ", " (as in server/api/send-email.js:42) parse back to the same list |
| Flows.ToHeaderReparses | server/api/send-email.js:42 | the `to` header built from the client's parsed recipients parses back to those recipients |
| Flows.CommasOnlyReachServerEmpty | client/src/App.jsx:52-71 | a non-blank field of only commas and whitespace passes the client guard, parses to [], and the send handler answers 400 without invoking the transport |
| Flows.LoneCommaParsesToNothing | client/src/App.jsx:71 | "," is not blank yet parses to no recipient |
| Flows.ShortPromptPassesClientOnly | client/src/App.jsx:17 | "Hi" passes the client's prompt guard; the server guard rejects it and the single-model handler answers 400 without asking a model |
| Flows.LongGeneratedEmailIsSendable | server/api/send-email.js:26-45 | a generated email of at least ten characters passes the send handler's guards and reaches the transport |
| Flows.ShortGeneratedEmailIsRefused | server/api/send-email.js:26-28 | the generate route can return "Thanks!", which the send handler refuses with 400 |
| Flows.BlankContentSplitsHandlers | server/api/generate-email.js:35-40 | on whitespace-only content the single-model handler answers 200 with it, while the fallback route stops at the first model and fails with the generic error |

## Left out

- The Groq SDK and nodemailer calls, `fetch`, and their retries and timeouts. The model takes each call's
  answer as an input. It does not model the messages sent to the provider, `max_tokens` or
  `temperature: 0.7`.
- Express setup, CORS headers and middleware, environment loading, the startup test call, the health and
  root routes and the 404 and error middleware. These are configuration and I/O.
- The `/api/send-email` route of server/server.js:131-133. It is an empty stub; the serverless handler is
  the one modelled.
- A request body that is not an object (`const { prompt } = req.body` throwing). Every body is taken to be
  a JSON object whose fields may be absent.
- A `content` or `messageId` that is not a string. The completion text and the message id are strings in
  the model.
- The React rendering, `console` logging and the two-second `setTimeout` form reset after a successful
  send. The reset is UI timing.
- The exact characters of JavaScript's `trim` are listed in `Text.Spaces` (ECMAScript WhiteSpace and
  LineTerminator). The concrete examples rely on the space and the line feed being whitespace, and on the
  letters, digits, punctuation and emoji they use not being whitespace. The general lemmas hold for any set that contains the space;
  `Flows.ParseUndoesJoin` and `Flows.ToHeaderReparses` need it, for the space that `join(', ')` inserts.
- Client.FailureMessage: a response without a body makes `response.json()` throw, whatever its status,
  and the message is the browser's parse error. The model uses V8's "Unexpected end of JSON input". A
  body that is JSON but not one of the handlers' shapes is not modelled; such a body without an `error`
  text gives "Unknown error".
- Client.EmailField: a 2xx response without an `email` field stores `undefined` in the form. The model
  stores the empty string.
- Client.App.GenerateEmail and Client.App.SendEmail: the transient states (`isLoading` true, status
  "Generating email..." / "Sending email...") are set in the bodies but not stated in the contracts. The
  contracts describe the state once the request has settled.
