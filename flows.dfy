/** How the form and the handlers fit together: what the client's parse
    sends and what the server does with it, and what a generated email
    meets when it is sent on. */
module Flows {

  import opened Json
  import opened Text
  import opened Http
  import Server
  import SendEmail
  import GenerateEmail
  import Client

  /** A comma split of recipients joined with ", " gives back the first
      recipient and then each further one behind a single space. */
  lemma {:induction false} SplitOfJoined(rs: seq<string>)
    requires |rs| >= 1
    requires forall i :: 0 <= i < |rs| ==> ',' !in rs[i]
    ensures var parts := Split(JoinWith(rs, ", "), ',');
      |parts| == |rs| && parts[0] == rs[0] &&
      forall i :: 1 <= i < |rs| ==> parts[i] == " " + rs[i]
  {
    if |rs| == 1 {
      SplitGluesPrefix(rs[0], [], ',');
      assert rs[0] + [] == rs[0];
    } else {
      var tail := rs[1..];
      var y := JoinWith(tail, ", ");
      SplitOfJoined(tail);
      var inner := Split(y, ',');
      assert JoinWith(rs, ", ") == rs[0] + ([','] + (" " + y));
      SplitGluesPrefix(rs[0], [','] + (" " + y), ',');
      SplitAtSeparator(" " + y, ',');
      SplitGluesPrefix(" ", y, ',');
      var parts := Split(JoinWith(rs, ", "), ',');
      assert parts == [rs[0] + []] + Split(" " + y, ',');
      assert Split(" " + y, ',') == [" " + inner[0]] + inner[1..];
      assert rs[0] + [] == rs[0];
      forall i | 1 <= i < |rs| ensures parts[i] == " " + rs[i] {
        assert parts[i] == Split(" " + y, ',')[i - 1];
        if i > 1 {
          assert tail[i - 1] == rs[i];
        }
      }
    }
  }

  /** The filter keeps a list with no empty element as it is. */
  lemma {:induction false} DropEmptyKeepsFilled(ps: seq<string>)
    requires forall i :: 0 <= i < |ps| ==> ps[i] != []
    ensures Client.DropEmpty(ps) == ps
  {
    if ps != [] {
      DropEmptyKeepsFilled(ps[1..]);
      assert ps == [ps[0]] + ps[1..];
    }
  }

  /** A trimmed recipient behind one space trims back to itself. */
  lemma TrimDropsJoinSpace(r: string)
    requires Trimmed(r)
    ensures Trim(" " + r) == r
  {
    assert Blank(" ");
    TrimSkipsLeadingSpace(" ", r);
    TrimmedIsFixed(r);
  }

  /** Trimming the pieces of the split strips the single space that the
      join put in front of every recipient after the first. */
  lemma TrimEachOfJoined(rs: seq<string>)
    requires |rs| >= 1
    requires forall i :: 0 <= i < |rs| ==> Trimmed(rs[i]) && ',' !in rs[i]
    ensures Client.TrimEach(Split(JoinWith(rs, ", "), ',')) == rs
  {
    var parts := Split(JoinWith(rs, ", "), ',');
    SplitOfJoined(rs);
    var trimmed := Client.TrimEach(parts);
    assert |trimmed| == |rs|;
    forall i | 0 <= i < |rs| ensures trimmed[i] == rs[i] {
      if i == 0 {
        TrimmedIsFixed(rs[0]);
      } else {
        TrimDropsJoinSpace(rs[i]);
      }
    }
  }

  /** Recipients in parsed form (non-empty, trimmed, comma-free) survive
      the server's ", " join and the client's parse unchanged. */
  lemma ParseUndoesJoin(rs: seq<string>)
    requires forall i :: 0 <= i < |rs| ==> Client.CleanRecipient(rs[i])
    ensures Client.ParseRecipients(JoinWith(rs, ", ")) == rs
  {
    if rs == [] {
      assert Client.TrimEach(Split([], ',')) == [[]];
    } else {
      TrimEachOfJoined(rs);
      DropEmptyKeepsFilled(rs);
    }
  }

  /** The `to` header the server builds from the client's recipients parses
      back to the same recipients. */
  lemma ToHeaderReparses(input: string, emailUser: string, subject: Json, content: string)
    ensures var rs := Client.ParseRecipients(input);
      Client.ParseRecipients(SendEmail.BuildMail(emailUser, StrArray(rs).items, subject, content).to) == rs
  {
    var rs := Client.ParseRecipients(input);
    Client.ParsedRecipientsClean(input);
    SendEmail.ToListsRecipients(emailUser, rs, subject, content);
    ParseUndoesJoin(rs);
  }

  /** A recipient field of commas and whitespace that is not blank passes
      the client's guard, parses to an empty list, and the server answers
      400 without invoking the transport. */
  lemma CommasOnlyReachServerEmpty(input: string, subject: string, content: string,
                                   emailUser: string, transport: SendEmail.Mail -> SendEmail.Delivery)
    requires !Blank(input) && !Blank(content)
    requires Client.SeparatorsAndSpace(input, ',')
    ensures Client.SendGuard(input, content).None?
    ensures Client.ParseRecipients(input) == []
    ensures SendEmail.HandleSend("POST", StrArray(Client.ParseRecipients(input)), Str(subject), Str(content),
                                 emailUser, transport)
      == SendEmail.Handled(Response(400, Error(SendEmail.RecipientRequired, NoExtra)), None)
  {
    Client.ParseEmptyIffCommasAndSpace(input);
  }

  /** The input "," is the smallest such field. */
  lemma LoneCommaParsesToNothing()
    ensures !Blank(",") && Client.ParseRecipients(",") == []
  {
    assert !IsSpace(","[0]);
    Client.ParseEmptyIffCommasAndSpace(",");
  }

  /** A prompt of fewer than five non-blank characters passes the client's
      guard and is refused by both server handlers before any model is
      asked. */
  lemma ShortPromptPassesClientOnly(ask: string -> Completion)
    ensures Client.GenerateGuard("Hi").None?
    ensures RejectsPrompt(Str("Hi"))
    ensures GenerateEmail.HandleGenerate("POST", Str("Hi"), ask)
      == GenerateEmail.Handled(Response(400, Error(PromptRequired, NoExtra)), [])
  {
    assert !IsSpace("Hi"[0]) && !IsSpace("Hi"[1]);
    assert |Trim("Hi")| <= 2;
  }

  /** A generated email of at least ten characters is accepted by the send
      handler: the transport is invoked with it and its answer decides the
      response. */
  lemma LongGeneratedEmailIsSendable(ask: string -> Completion, recipient: string, subject: Json,
                                     emailUser: string, transport: SendEmail.Mail -> SendEmail.Delivery)
    requires Server.Fallback(Server.Models, ask).Generated?
    requires |Server.Fallback(Server.Models, ask).email| >= 10
    ensures var email := Server.Fallback(Server.Models, ask).email;
      var h := SendEmail.HandleSend("POST", StrArray([recipient]), subject, Str(email), emailUser, transport);
      h.mail.Some? && h.response == SendEmail.Reply(transport(h.mail.value))
  {
    Server.GeneratedIsTrimmedContent(Server.Models, ask);
    TrimmedIsFixed(Server.Fallback(Server.Models, ask).email);
  }

  /** "Thanks!" is seven code units, under the send handler's floor. */
  lemma ThanksIsShortContent()
    ensures Trim("Thanks!") == "Thanks!"
    ensures SendEmail.RejectsContent(Str("Thanks!"))
  {
    var text := "Thanks!";
    assert !IsSpace(text[0]) && !IsSpace(text[|text| - 1]);
    TrimmedKept(text);
    Utf16LengthOfBmp(text);
  }

  /** A short generated email is not: the server's generate route returns
      "Thanks!" (seven characters, above its own five-character floor) and
      the send handler refuses it as content with 400. */
  lemma ShortGeneratedEmailIsRefused(recipient: string, subject: Json,
                                     emailUser: string, transport: SendEmail.Mail -> SendEmail.Delivery)
    ensures var ask := (m: string) => Content("Thanks!");
      Server.Fallback(Server.Models, ask) == Server.Generated("Thanks!") &&
      SendEmail.HandleSend("POST", StrArray([recipient]), subject, Str("Thanks!"), emailUser, transport)
        == SendEmail.Handled(Response(400, Error(SendEmail.ContentRequired, NoExtra)), None)
  {
    var ask := (m: string) => Content("Thanks!");
    ThanksIsShortContent();
    Server.FallbackStopsAtFirstContent(Server.Models, ask, 0);
  }

  /** The prompt used below passes the server's prompt guard. */
  lemma ThankYouPromptAccepted()
    ensures !RejectsPrompt(Str("Write a short thank-you note"))
  {
    var prompt := "Write a short thank-you note";
    assert !IsSpace(prompt[0]) && !IsSpace(prompt[|prompt| - 1]);
    TrimmedIsFixed(prompt);
  }

  /** The single-model handler returns whitespace-only content with 200. */
  lemma BlankContentReturned(ask: string -> Completion)
    requires ask("llama3-8b-8192") == Content("  \n")
    ensures GenerateEmail.HandleGenerate("POST", Str("Write a short thank-you note"), ask).response
      == Response(200, Email("  \n"))
  {
    ThankYouPromptAccepted();
  }

  /** The fallback route treats it as no content and, once the first
      model's answer is blank, fails with the generic error. */
  lemma BlankContentFails(ask: string -> Completion)
    requires forall m :: ask(m) == Content("  \n")
    ensures Server.FirstHit(Server.Models, ask) == 0
    ensures Server.Fallback(Server.Models, ask) == Server.Failed(Server.AllModelsFailed)
  {
    assert Blank("  \n");
    Server.FallbackStopsAtFirstContent(Server.Models, ask, 0);
    assert Server.Models[..0] == [];
  }

  /** The two generate handlers disagree on whitespace-only content: the
      single-model handler returns it with 200, the fallback route fails
      with the generic error after the first model. */
  lemma BlankContentSplitsHandlers()
    ensures var ask := (m: string) => Content("  \n");
      GenerateEmail.HandleGenerate("POST", Str("Write a short thank-you note"), ask).response
        == Response(200, Email("  \n")) &&
      Server.FirstHit(Server.Models, ask) == 0 &&
      Server.Fallback(Server.Models, ask) == Server.Failed(Server.AllModelsFailed)
  {
    var ask := (m: string) => Content("  \n");
    BlankContentReturned(ask);
    BlankContentFails(ask);
  }
}
