/** The browser form: how it parses the recipient field, the guards in
    front of its two requests, and the state those requests update. The
    network is the parameter `post`: `post(x)` is what `fetch` yields for a
    request carrying `x`. */
module Client {

  import opened Json
  import opened Text
  import opened Http

  const PromptMissing := "Please enter a prompt"
  const RecipientsMissing := "Please enter at least one recipient"
  const ContentMissing := "Email content is required"
  const Generating := "Generating email..."
  const Sending := "Sending email..."
  const SentOk := "Email sent successfully!"
  const GenerateFailedPrefix := "Failed to generate email: "
  const SendFailedPrefix := "Failed to send email: "
  const InitialSubject := "AI Generated Email"
  /** The message `response.json()` throws on an empty body, in V8. */
  const EmptyJsonError := "Unexpected end of JSON input"

  /** What `fetch` yields: a rejected promise with its message, or the
      server's response. */
  datatype FetchOutcome = NetworkError(message: string) | Received(response: Response)

  /** The JSON body of a send request. */
  datatype SendRequest = SendRequest(recipients: seq<string>, subject: string, content: string)

  /** Each piece trimmed, in place. */
  function TrimEach(ps: seq<string>): seq<string> {
    seq(|ps|, i requires 0 <= i < |ps| => Trim(ps[i]))
  }

  /** `filter(r => r)`: the non-empty pieces, in order. */
  function DropEmpty(ps: seq<string>): seq<string> {
    if ps == [] then []
    else (if ps[0] == [] then [] else [ps[0]]) + DropEmpty(ps[1..])
  }

  /** `input.split(',').map(r => r.trim()).filter(r => r)`. */
  function ParseRecipients(input: string): seq<string> {
    DropEmpty(TrimEach(Split(input, ',')))
  }

  /** The filter keeps only non-empty pieces of its input. */
  lemma {:induction false} DropEmptyMembers(ps: seq<string>)
    ensures forall x :: x in DropEmpty(ps) ==> x in ps && x != []
  {
    if ps != [] {
      DropEmptyMembers(ps[1..]);
      assert ps == [ps[0]] + ps[1..];
    }
  }

  /** A recipient as the parse yields it: non-empty, no whitespace at
      either end, no comma. */
  predicate CleanRecipient(x: string) {
    x != [] && Trimmed(x) && ',' !in x
  }

  /** Every parsed recipient is clean. */
  lemma ParsedRecipientsClean(input: string)
    ensures forall i :: 0 <= i < |ParseRecipients(input)| ==> CleanRecipient(ParseRecipients(input)[i])
  {
    var pieces := Split(input, ',');
    var trimmed := TrimEach(pieces);
    DropEmptyMembers(trimmed);
    forall x | x in trimmed ensures Trimmed(x) && ',' !in x {
      var i :| 0 <= i < |trimmed| && trimmed[i] == x;
      TrimKeepsAbsent(pieces[i], ',');
    }
    var rs := ParseRecipients(input);
    forall i | 0 <= i < |rs| ensures CleanRecipient(rs[i]) {
      assert rs[i] in rs;
    }
  }

  /** `a` is `b` with some elements left out, the rest in their order. */
  ghost predicate Subsequence<T>(a: seq<T>, b: seq<T>) {
    if a == [] then true
    else if b == [] then false
    else if a[0] == b[0] then Subsequence(a[1..], b[1..])
    else Subsequence(a, b[1..])
  }

  /** The filter keeps the order of what it keeps. */
  lemma {:induction false} DropEmptySubsequence(ps: seq<string>)
    ensures Subsequence(DropEmpty(ps), ps)
  {
    if ps != [] {
      var rest := DropEmpty(ps[1..]);
      DropEmptySubsequence(ps[1..]);
      if ps[0] == [] {
        assert DropEmpty(ps) == rest;
        if rest != [] {
          DropEmptyMembers(ps[1..]);
          assert rest[0] in rest;
        }
      } else {
        assert DropEmpty(ps) == [ps[0]] + rest;
        assert DropEmpty(ps)[1..] == rest;
      }
    }
  }

  /** The filter keeps every non-empty piece as often as it occurs. */
  lemma {:induction false} DropEmptyCounts(ps: seq<string>)
    ensures forall x :: x != [] ==> multiset(DropEmpty(ps))[x] == multiset(ps)[x]
  {
    if ps != [] {
      var rest := DropEmpty(ps[1..]);
      DropEmptyCounts(ps[1..]);
      assert ps == [ps[0]] + ps[1..];
      assert multiset(ps) == multiset{ps[0]} + multiset(ps[1..]);
      if ps[0] != [] {
        assert multiset(DropEmpty(ps)) == multiset{ps[0]} + multiset(rest);
      }
    }
  }

  /** The filter gives nothing exactly when every piece is empty. */
  lemma {:induction false} DropEmptyNone(ps: seq<string>)
    ensures DropEmpty(ps) == [] <==> forall i :: 0 <= i < |ps| ==> ps[i] == []
  {
    if ps != [] {
      DropEmptyNone(ps[1..]);
      assert forall i :: 1 <= i < |ps| ==> ps[i] == ps[1..][i - 1];
    }
  }

  /** The parsed recipients are the trimmed comma-separated pieces of the
      input with the empty ones dropped: in the input's order, and each
      non-empty piece as often as it occurs. */
  lemma ParseKeepsPieceOrder(input: string)
    ensures var pieces := TrimEach(Split(input, ','));
      Subsequence(ParseRecipients(input), pieces) &&
      forall x :: x != [] ==> multiset(ParseRecipients(input))[x] == multiset(pieces)[x]
  {
    DropEmptySubsequence(TrimEach(Split(input, ',')));
    DropEmptyCounts(TrimEach(Split(input, ',')));
  }

  /** Every piece is blank. */
  predicate AllBlank(ps: seq<string>) {
    forall k :: 0 <= k < |ps| ==> Blank(ps[k])
  }

  /** Every character is the separator or whitespace. */
  predicate SeparatorsAndSpace(s: string, sep: char) {
    forall i :: 0 <= i < |s| ==> s[i] == sep || IsSpace(s[i])
  }

  lemma AllBlankCons(p: string, ps: seq<string>)
    ensures AllBlank([p] + ps) <==> Blank(p) && AllBlank(ps)
  {
    var qs := [p] + ps;
    assert qs[0] == p;
    assert forall k :: 0 <= k < |ps| ==> qs[k + 1] == ps[k];
    if Blank(p) && AllBlank(ps) {
      forall k | 0 <= k < |qs| ensures Blank(qs[k]) {
        if k > 0 {
          assert qs[k] == ps[k - 1];
        }
      }
    }
  }

  lemma BlankCons(c: char, w: string)
    ensures Blank([c] + w) <==> IsSpace(c) && Blank(w)
  {
    var cw := [c] + w;
    assert cw[0] == c;
    assert forall j :: 0 <= j < |w| ==> cw[j + 1] == w[j];
    if IsSpace(c) && Blank(w) {
      forall j | 0 <= j < |cw| ensures IsSpace(cw[j]) {
        if j > 0 {
          assert cw[j] == w[j - 1];
        }
      }
    }
  }

  lemma SeparatorsAndSpaceCons(s: string, sep: char)
    requires s != []
    ensures SeparatorsAndSpace(s, sep) <==>
      (s[0] == sep || IsSpace(s[0])) && SeparatorsAndSpace(s[1..], sep)
  {
    assert forall i :: 1 <= i < |s| ==> s[i] == s[1..][i - 1];
  }

  /** Every piece of a split is blank exactly when every character is the
      separator or whitespace. */
  lemma {:induction false} SplitPiecesBlank(s: string, sep: char)
    ensures AllBlank(Split(s, sep)) <==> SeparatorsAndSpace(s, sep)
  {
    if s == [] {
      assert Split(s, sep) == [[]];
      assert Blank([]);
    } else {
      var rest := Split(s[1..], sep);
      SplitPiecesBlank(s[1..], sep);
      SeparatorsAndSpaceCons(s, sep);
      if s[0] == sep {
        assert Split(s, sep) == [[]] + rest;
        AllBlankCons([], rest);
        assert Blank([]);
      } else {
        var head := [s[0]] + rest[0];
        assert Split(s, sep) == [head] + rest[1..];
        assert rest == [rest[0]] + rest[1..];
        AllBlankCons(head, rest[1..]);
        AllBlankCons(rest[0], rest[1..]);
        BlankCons(s[0], rest[0]);
      }
    }
  }

  /** The input parses to no recipient at all exactly when it holds
      nothing but commas and whitespace. */
  lemma ParseEmptyIffCommasAndSpace(input: string)
    ensures ParseRecipients(input) == [] <==> SeparatorsAndSpace(input, ',')
  {
    var pieces := Split(input, ',');
    DropEmptyNone(TrimEach(pieces));
    SplitPiecesBlank(input, ',');
    assert forall k :: 0 <= k < |pieces| ==> (TrimEach(pieces)[k] == [] <==> Blank(pieces[k]));
  }

  /** The guard of `generateEmail`: no request for a blank prompt. */
  function GenerateGuard(prompt: string): (r: Option<string>)
    ensures r.None? <==> !Blank(prompt)
    ensures r.Some? ==> r.value == PromptMissing
  {
    if Trim(prompt) == [] then Some(PromptMissing) else None
  }

  /** The guards of `sendEmail`: blank recipients are reported before blank
      content, and a request goes out only when neither is blank. */
  function SendGuard(recipients: string, content: string): (r: Option<string>)
    ensures r.None? <==> !Blank(recipients) && !Blank(content)
    ensures Blank(recipients) ==> r == Some(RecipientsMissing)
    ensures !Blank(recipients) && Blank(content) ==> r == Some(ContentMissing)
  {
    if Trim(recipients) == [] then Some(RecipientsMissing)
    else if Trim(content) == [] then Some(ContentMissing)
    else None
  }

  /** The number a string of decimal digits denotes, most significant
      digit first. */
  function DigitsValue(s: string): nat
    requires forall i :: 0 <= i < |s| ==> '0' <= s[i] <= '9'
  {
    if s == [] then 0
    else 10 * DigitsValue(s[..|s| - 1]) + (s[|s| - 1] as int - '0' as int)
  }

  /** `String(n)`: the decimal digits of `n`, without leading zeros, which
      denote `n`. */
  function Decimal(n: nat): (s: string)
    ensures s != []
    ensures forall i :: 0 <= i < |s| ==> '0' <= s[i] <= '9'
    ensures s[0] != '0' || s == "0"
    ensures DigitsValue(s) == n
  {
    var d := [('0' as int + n % 10) as char];
    if n < 10 then d
    else
      var high := Decimal(n / 10);
      assert (high + d)[..|high|] == high;
      high + d
  }

  /** The message of a failed request: the network's message; the parse
      error of `response.json()` when the body is empty, whatever the
      status; otherwise `Server error: <status> - <error field or
      'Unknown error'>`. */
  function FailureMessage(o: FetchOutcome): string {
    match o
    case NetworkError(msg) => msg
    case Received(r) =>
      if r.body.Empty? then EmptyJsonError
      else
        "Server error: " + Decimal(r.status) + " - " +
        (if r.body.Error? && r.body.error != [] then r.body.error else "Unknown error")
  }

  /** `data.email` of a successful generate response. */
  function EmailField(b: Body): string {
    if b.Email? then b.email else []
  }

  /** Whether a request succeeded: a response with a 2xx status whose
      body `response.json()` can parse. */
  predicate Succeeded(o: FetchOutcome) {
    o.Received? && IsOk(o.response) && !o.response.body.Empty?
  }

  /** A 2xx answer without a body is a failure: `response.json()` throws
      before the success branch, and the status reports the parse error. */
  lemma EmptyOkIsFailure(status: nat)
    requires 200 <= status < 300
    ensures !Succeeded(Received(Response(status, Empty)))
    ensures GenerateFailedPrefix + FailureMessage(Received(Response(status, Empty)))
      == "Failed to generate email: Unexpected end of JSON input"
  {
  }

  /** The form's state. The buttons are disabled while `isLoading`, so a
      handler only starts when the form is idle. */
  class App {
    var recipients: string
    var prompt: string
    var generatedEmail: string
    var subject: string
    var status: string
    var isLoading: bool

    constructor ()
      ensures recipients == [] && prompt == [] && generatedEmail == []
      ensures subject == InitialSubject && status == [] && !isLoading
    {
      recipients, prompt, generatedEmail := [], [], [];
      subject, status, isLoading := InitialSubject, [], false;
    }

    /** `generateEmail`: a blank prompt only sets the status; otherwise the
        prompt is posted, a success stores the returned email and clears
        the status, a failure reports its message, and the form ends idle
        whatever happened. */
    method GenerateEmail(post: string -> FetchOutcome) returns (request: Option<string>)
      requires !isLoading
      modifies this
      ensures !isLoading
      ensures recipients == old(recipients) && prompt == old(prompt) && subject == old(subject)
      ensures Blank(prompt) ==>
        request == None && status == PromptMissing && generatedEmail == old(generatedEmail)
      ensures !Blank(prompt) && Succeeded(post(prompt)) ==>
        request == Some(prompt) && status == [] &&
        generatedEmail == EmailField(post(prompt).response.body)
      ensures !Blank(prompt) && !Succeeded(post(prompt)) ==>
        request == Some(prompt) && generatedEmail == old(generatedEmail) &&
        status == GenerateFailedPrefix + FailureMessage(post(prompt))
    {
      var blocked := GenerateGuard(prompt);
      if blocked.Some? {
        status := blocked.value;
        return None;
      }
      isLoading := true;
      status := Generating;
      request := Some(prompt);
      var outcome := post(prompt);
      if Succeeded(outcome) {
        generatedEmail := EmailField(outcome.response.body);
        status := [];
      } else {
        status := GenerateFailedPrefix + FailureMessage(outcome);
      }
      isLoading := false;
    }

    /** `sendEmail`: blank recipients, then blank content, only set the
        status; otherwise the parsed recipients, the subject and the email
        are posted, and the status reports success or the failure's
        message. The form ends idle whatever happened. */
    method SendEmail(post: SendRequest -> FetchOutcome) returns (request: Option<SendRequest>)
      requires !isLoading
      modifies this
      ensures !isLoading
      ensures recipients == old(recipients) && prompt == old(prompt) && subject == old(subject)
      ensures generatedEmail == old(generatedEmail)
      ensures Blank(recipients) ==> request == None && status == RecipientsMissing
      ensures !Blank(recipients) && Blank(generatedEmail) ==> request == None && status == ContentMissing
      ensures !Blank(recipients) && !Blank(generatedEmail) ==>
        request == Some(SendRequest(ParseRecipients(recipients), subject, generatedEmail))
      ensures request.Some? && Succeeded(post(request.value)) ==> status == SentOk
      ensures request.Some? && !Succeeded(post(request.value)) ==>
        status == SendFailedPrefix + FailureMessage(post(request.value))
    {
      var input, email := recipients, generatedEmail;
      var blocked := SendGuard(input, email);
      if blocked.Some? {
        status := blocked.value;
        return None;
      }
      isLoading := true;
      status := Sending;
      var body := SendRequest(ParseRecipients(input), subject, email);
      request := Some(body);
      var outcome := post(body);
      if Succeeded(outcome) {
        status := SentOk;
      } else {
        status := SendFailedPrefix + FailureMessage(outcome);
      }
      isLoading := false;
    }
  }
}
