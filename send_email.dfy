/** The serverless `send-email` handler: method dispatch, recipient and
    content validation, the mail fields handed to the transport and the
    mapping of the transport's answer. The transport is the parameter
    `transport`: `transport(m)` is what sending `m` gives back. */
module SendEmail {

  import opened Json
  import opened Text
  import opened Http

  const RecipientRequired := "At least one valid recipient is required"
  const ContentRequired := "Valid email content is required (min 10 characters)"
  const DefaultSubject := "AI Generated Email"
  const SendingFailed := "Email sending failed"

  /** The message passed to `sendMail`. `subject` is whatever the request
      carried when truthy, so it need not be a string. */
  datatype Mail = Mail(from: string, to: string, subject: Json, html: string)

  /** What `sendMail` gives back: the delivery's id, or an exception. */
  datatype Delivery = Delivered(messageId: string) | Undelivered(message: string)

  /** The response, and the mail handed to the transport (None when the
      transport was not invoked). */
  datatype Handled = Handled(response: Response, mail: Option<Mail>)

  /** The recipient guard: missing, falsy, not an array or empty. Only the
      array's length is tested, never its elements. */
  function RejectsRecipients(recipients: Json): (b: bool)
    ensures b <==> !(recipients.Array? && |recipients.items| > 0)
  {
    !Truthy(recipients) || !recipients.Array? || |recipients.items| == 0
  }

  /** The content guard: missing, falsy, not a string or shorter than ten
      UTF-16 code units once trimmed. */
  function RejectsContent(content: Json): (b: bool)
    ensures b <==> !(content.Str? && Utf16Length(Trim(content.s)) >= 10)
  {
    !Truthy(content) || !content.Str? || Utf16Length(Trim(content.s)) < 10
  }

  /** `subject || 'AI Generated Email'`: a truthy subject is kept as it is,
      a falsy one (absent, null, "" ...) is replaced by the default. */
  function SubjectOrDefault(subject: Json): (r: Json)
    ensures Truthy(r)
    ensures Truthy(subject) ==> r == subject
    ensures !Truthy(subject) ==> r == Str(DefaultSubject)
  {
    if Truthy(subject) then subject else Str(DefaultSubject)
  }

  /** The mail fields: the configured sender, the recipients joined with
      ", " in their given order, the subject or its default, and the content
      with each line feed turned into `<br>`. `emailUser` is the configured
      account name as it renders in a template string. */
  function BuildMail(emailUser: string, recipients: seq<Json>, subject: Json, content: string): (m: Mail)
    ensures m.from == "\"AI Email Assistant\" <" + emailUser + ">"
    ensures m.to == JoinWith(ItemTexts(recipients), ", ")
    ensures m.subject == SubjectOrDefault(subject) && Truthy(m.subject)
    ensures m.html == NewlinesToBreaks(content) && '\n' !in m.html
  {
    Mail("\"AI Email Assistant\" <" + emailUser + ">",
         JoinItems(recipients, ", "),
         SubjectOrDefault(subject),
         NewlinesToBreaks(content))
  }

  /** The response for the transport's answer. */
  function Reply(d: Delivery): (r: Response)
    ensures r.status == 200 <==> d.Delivered?
    ensures d.Delivered? ==> r.body == Sent(d.messageId)
    ensures d.Undelivered? ==> r == Response(500, Error(SendingFailed, Details(d.message)))
  {
    match d
    case Delivered(id) => Response(200, Sent(id))
    case Undelivered(msg) => Response(500, Error(SendingFailed, Details(msg)))
  }

  /** The handler. OPTIONS is answered before anything else, any method
      but POST gets 405, the recipients are checked before the content, and
      the transport is invoked exactly when both checks pass. */
  function HandleSend(verb: string, recipients: Json, subject: Json, content: Json,
                      emailUser: string, transport: Mail -> Delivery): (h: Handled)
    ensures verb == "OPTIONS" ==> h == Handled(Response(200, Empty), None)
    ensures verb != "OPTIONS" && verb != "POST" ==>
      h == Handled(Response(405, Error(MethodNotAllowed, NoExtra)), None)
    ensures verb == "POST" && RejectsRecipients(recipients) ==>
      h == Handled(Response(400, Error(RecipientRequired, NoExtra)), None)
    ensures verb == "POST" && !RejectsRecipients(recipients) && RejectsContent(content) ==>
      h == Handled(Response(400, Error(ContentRequired, NoExtra)), None)
    ensures h.mail.Some? <==>
      verb == "POST" && recipients.Array? && |recipients.items| > 0 &&
      content.Str? && Utf16Length(Trim(content.s)) >= 10
    ensures h.mail.Some? ==>
      h.mail.value == BuildMail(emailUser, recipients.items, subject, content.s) &&
      h.response == Reply(transport(h.mail.value))
  {
    if verb == "OPTIONS" then Handled(Response(200, Empty), None)
    else if verb != "POST" then Handled(Response(405, Error(MethodNotAllowed, NoExtra)), None)
    else if RejectsRecipients(recipients) then Handled(Response(400, Error(RecipientRequired, NoExtra)), None)
    else if RejectsContent(content) then Handled(Response(400, Error(ContentRequired, NoExtra)), None)
    else
      var mail := BuildMail(emailUser, recipients.items, subject, content.s);
      Handled(Reply(transport(mail)), Some(mail))
  }

  /** The html body keeps the content's text: it and the content are the
      same line-feed-separated segments, in the same order, joined by
      `<br>` and by a line feed respectively. Carriage returns are ordinary
      characters here and survive. */
  lemma {:induction false} HtmlKeepsSegments(emailUser: string, recipients: seq<Json>, subject: Json, content: string)
    ensures var html := BuildMail(emailUser, recipients, subject, content).html;
      html == JoinWith(Split(content, '\n'), "<br>") &&
      content == JoinWith(Split(content, '\n'), "\n")
  {
    BreaksAreJoinedLines(content);
    SplitJoin(content, '\n');
  }

  /** String recipients reach the `to` header verbatim, in their order,
      duplicates kept, separated by ", ". */
  lemma ToListsRecipients(emailUser: string, rs: seq<string>, subject: Json, content: string)
    ensures BuildMail(emailUser, StrArray(rs).items, subject, content).to == JoinWith(rs, ", ")
  {
    assert ItemTexts(StrArray(rs).items) == rs;
  }

  /** The elements of the recipient array are not validated: `[null, ""]`
      passes the guard and the transport is asked to send to ", ". */
  lemma ElementsNotValidated(content: string, emailUser: string, transport: Mail -> Delivery)
    requires Utf16Length(Trim(content)) >= 10
    ensures var h := HandleSend("POST", Array([Null, Str("")]), Missing, Str(content), emailUser, transport);
      h.mail.Some? && h.mail.value.to == ", " && h.mail.value.subject == Str(DefaultSubject)
  {
    var items := [Null, Str("")];
    assert ItemTexts(items) == ["", ""];
    assert JoinWith(["", ""], ", ") == ", ";
  }
}
