/** The per-call conversation controller of main.py: the four module-level
    globals that hold the one conversation, their reset by `make_ai_call`,
    the greeting of `greet_client`, and the decision logic of
    `gather_input`, which answers each transcribed reply of the caller.

    Responses are abstract actions: play an utterance and keep listening
    (`<Play>` + `<Gather>`), play an utterance and hang up (`<Play>` +
    `<Hangup>`), or only keep listening (`<Gather>`). The text of an
    utterance is what would be handed to the speech synthesiser. */
module Conversation {
  import opened Optional
  import opened Strings
  import opened Responses

  /** The only two values `previous_question` ever holds: `None`, and
      "sales_contact_permission" once the consent question was asked. */
  datatype Question = NoQuestion | SalesContactPermission

  /** The globals `current_customer_name`, `current_customer_phone`,
      `previous_question` and `sales_contact_requested`. Name and phone come
      from optional form fields, so they may be absent. */
  datatype Session = Session(
    customerName: Option<string>,
    customerPhone: Option<string>,
    previousQuestion: Question,
    salesContactRequested: bool)

  /** The globals as the process starts, before any call is placed
      (main.py:33-36). */
  const StartupSession := Session(None, None, NoQuestion, false)

  datatype HttpMethod = Get | Post

  /** A request to the gather endpoint: its method and the optional
      `SpeechResult` form field with the transcribed reply. */
  datatype Request = Request(verb: HttpMethod, speechResult: Option<string>)

  /** What is said: the greeting, a sales response with the consent
      question appended, or a fixed reply. */
  datatype Utterance =
    | Greeting(name: Option<string>)
    | Pitch(body: Line, name: Option<string>)
    | Say(line: Line)

  datatype Action =
    | PlayGather(utterance: Utterance)
    | PlayHangup(utterance: Utterance)
    | GatherOnly

  /** The row `log_customer_consent` appends: who agreed to be contacted.
      The time stamp is taken from the clock and is not modelled. */
  datatype ConsentEvent = ConsentEvent(customerName: Option<string>, customerPhone: Option<string>)

  /** What one reply produces: the response, the globals afterwards, and
      the consent event if one was logged. */
  datatype Outcome = Outcome(action: Action, next: Session, logged: Option<ConsentEvent>)

  /** How an f-string renders an optional name: an absent one reads "None". */
  function NameText(name: Option<string>): string
  {
    match name
    case Some(n) => n
    case None => "None"
  }

  /** The consent question appended to the first sales response. */
  function ConsentQuestion(name: Option<string>): string
  {
    " If you have any other queries about the services, then our Sales Person can connect with you. Is that okay for you, "
    + NameText(name) + "?"
  }

  /** `ai_response += ...`: the consent question appended to a reply. */
  function WithConsentQuestion(reply: string, name: Option<string>): string
  {
    reply + ConsentQuestion(name)
  }

  /** The greeting after the customer's name: who is calling, what is
      offered, and the question which service is of interest. */
  const GreetingRest := GreetingIntro + LineText(ClarifyingPrompt)

  /** Who is calling and what is offered. */
  const GreetingIntro :=
    ", this is Ginie from Army of Me. I hope you're doing well today! "
    + "We provide a range of accounting and financial services, including bookkeeping, tax preparation, payroll processing, and more. "

  /** The greeting `greet_client` speaks: "Hello", the customer's name,
      then the rest. */
  function GreetingSpeech(name: Option<string>): string
  {
    "Hello " + NameText(name) + GreetingRest
  }

  /** The text handed to the speech synthesiser. */
  function Text(u: Utterance): string
  {
    match u
    case Greeting(name) => GreetingSpeech(name)
    case Pitch(body, name) => WithConsentQuestion(LineText(body), name)
    case Say(line) => LineText(line)
  }

  /** Phrases that end the call from any point of the conversation. */
  const ClosingCues: seq<string> := ["thank you", "thanks"]

  /** Consent can only have been recorded after it was asked for. */
  predicate Inv(s: Session)
  {
    s.salesContactRequested ==> s.previousQuestion == SalesContactPermission
  }

  /** The reset in `make_ai_call`: every global is overwritten, so nothing
      of an earlier call survives; the new call starts with no question
      asked and no consent recorded. Placing the call itself is not
      modelled. */
  function MakeAiCall(name: Option<string>, phone: Option<string>): (s: Session)
    ensures Inv(s)
    ensures s.previousQuestion == NoQuestion && !s.salesContactRequested
    ensures s.customerName == name && s.customerPhone == phone
  {
    Session(name, phone, NoQuestion, false)
  }

  /** `greet_client`: greet the customer by name, pitch the services and
      ask which one interests them, then listen. It changes no state. */
  function GreetClient(s: Session): (a: Action)
    ensures a.PlayGather?
    ensures StartsWith(Text(a.utterance), "Hello " + NameText(s.customerName))
    ensures EndsWith(Text(a.utterance), LineText(ClarifyingPrompt))
  {
    GreetingText(s.customerName);
    PlayGather(Greeting(s.customerName))
  }

  /** The greeting opens with "Hello" and the customer's name ("None" when
      no name was given) and closes with the question which service is of
      interest, so the caller's first reply answers that question. */
  lemma GreetingText(name: Option<string>)
    ensures StartsWith(GreetingSpeech(name), "Hello " + NameText(name))
    ensures EndsWith(GreetingSpeech(name), LineText(ClarifyingPrompt))
  {
    AppendEnds("Hello " + NameText(name), GreetingIntro, LineText(ClarifyingPrompt));
  }

  /** The transcribed reply, or "" when the field is absent. */
  function Speech(req: Request): string
  {
    match req.speechResult
    case Some(text) => text
    case None => ""
  }

  /** The guard `request.method == 'POST' and user_input and
      user_input.strip()`: a POST whose reply is present and not blank. */
  predicate HasSpeech(req: Request)
  {
    req.verb == Post && req.speechResult.Some? && Strip(Speech(req)) != []
  }

  /** The reply says "thank you" or "thanks", in any letter case. */
  predicate IsClosing(speech: string)
  {
    ContainsAny(Lower(speech), ClosingCues)
  }

  /** The reply holds one of the affirmative phrases, in any letter case. */
  predicate IsAffirmative(speech: string)
  {
    ContainsAny(Lower(speech), AffirmativeCues)
  }

  /** A reply that is neither missing, blank nor a closing cue: one that
      the conversation context decides. */
  predicate Substantive(req: Request)
  {
    HasSpeech(req) && !IsClosing(Speech(req))
  }

  /** The response asks the consent question. */
  predicate IsPitch(a: Action)
  {
    a.PlayGather? && a.utterance.Pitch?
  }

  /** `gather_input`: one reply of the caller and what the controller does
      with it. The texts said on each path are stated by the lemmas below. */
  function GatherInput(s: Session, req: Request): (o: Outcome)
    // the customer's details never change during a call
    ensures o.next.customerName == s.customerName && o.next.customerPhone == s.customerPhone
    // no input: listen again, change nothing
    ensures o.action.GatherOnly? <==> !HasSpeech(req)
    ensures !HasSpeech(req) ==> o.next == s && o.logged.None?
    // closing cue, from every state: say goodbye and hang up, change nothing
    ensures o.action.PlayHangup? <==> HasSpeech(req) && IsClosing(Speech(req))
    ensures o.action.PlayHangup? ==>
      o.action.utterance == Say(Farewell) && o.next == s && o.logged.None?
    // first substantive reply: the consent question is asked
    ensures IsPitch(o.action) <==> s.previousQuestion == NoQuestion && Substantive(req)
    ensures IsPitch(o.action) ==>
      o.next == s.(previousQuestion := SalesContactPermission) && o.logged.None?
    // consent answer: logged exactly on an affirmative reply
    ensures o.logged.Some? <==>
      && s.previousQuestion == SalesContactPermission && !s.salesContactRequested
      && Substantive(req) && IsAffirmative(Speech(req))
    ensures o.logged.Some? ==>
      && o.logged.value == ConsentEvent(s.customerName, s.customerPhone)
      && o.next == s.(salesContactRequested := true)
    // every other reply leaves the session as it was
    ensures s.previousQuestion == SalesContactPermission && o.logged.None? ==> o.next == s
    // the conversation state only moves forward
    ensures Inv(s) ==> Inv(o.next)
    ensures s.previousQuestion == SalesContactPermission ==>
      o.next.previousQuestion == SalesContactPermission
    ensures s.salesContactRequested ==> o.next.salesContactRequested
  {
    if !HasSpeech(req) then
      Outcome(GatherOnly, s, None)
    else if IsClosing(Speech(req)) then
      Outcome(PlayHangup(Say(Farewell)), s, None)
    else
      var speech := Speech(req);
      match s.previousQuestion
      case SalesContactPermission =>
        if s.salesContactRequested then
          Outcome(PlayGather(Say(FollowUpResponse(speech))), s, None)
        else
          var reply := ConsentResponse(speech);
          if reply.1 then
            Outcome(PlayGather(Say(reply.0)), s.(salesContactRequested := true),
                    Some(ConsentEvent(s.customerName, s.customerPhone)))
          else
            Outcome(PlayGather(Say(reply.0)), s.(salesContactRequested := false), None)
      case NoQuestion =>
        Outcome(PlayGather(Pitch(SalesResponse(speech).0, s.customerName)),
                s.(previousQuestion := SalesContactPermission), None)
  }

  /** The first substantive reply is answered with the sales response for
      it, with the consent question addressed to the customer appended,
      and the call goes on: the overview when the reply asks for it, even
      if it also names a service; otherwise the first catalogue entry it
      names; otherwise the clarifying prompt. */
  lemma PitchText(s: Session, req: Request)
    requires s.previousQuestion == NoQuestion && Substantive(req)
    ensures var low := Lower(Speech(req));
      ContainsAny(low, OverviewCues) ==>
        GatherInput(s, req).action == PlayGather(Pitch(ServicesOverview, s.customerName))
    ensures var low := Lower(Speech(req));
      !ContainsAny(low, OverviewCues) ==>
        forall k :: 0 <= k < |Catalogue| && Mentions(low, k)
                    && (forall j :: 0 <= j < k ==> !Mentions(low, j))
          ==> GatherInput(s, req).action == PlayGather(Pitch(ServiceDetails(Catalogue[k]), s.customerName))
    ensures var low := Lower(Speech(req));
      (!ContainsAny(low, OverviewCues) && forall k :: 0 <= k < |Catalogue| ==> !Mentions(low, k)) ==>
        GatherInput(s, req).action == PlayGather(Pitch(ClarifyingPrompt, s.customerName))
  {
    assert GatherInput(s, req).action == PlayGather(Pitch(SalesResponse(Speech(req)).0, s.customerName));
  }

  /** While consent is awaited, an affirmative reply is thanked and a
      decline is acknowledged; the call goes on either way, and a decline
      leaves the session as it was. */
  lemma ConsentText(s: Session, req: Request)
    requires s.previousQuestion == SalesContactPermission && !s.salesContactRequested
    requires Substantive(req)
    ensures IsAffirmative(Speech(req)) ==>
      GatherInput(s, req).action == PlayGather(Say(ConsentGranted))
    ensures !IsAffirmative(Speech(req)) ==>
      GatherInput(s, req) == Outcome(PlayGather(Say(ConsentDeclined)), s, None)
  {
  }

  /** After consent, a substantive reply holding an inquiry phrase gets the
      service-list reminder and any other gets the thank-you text; the call
      goes on either way and the session is unchanged: no reply but a
      closing cue hangs up. */
  lemma FollowUpText(s: Session, req: Request)
    requires s.previousQuestion == SalesContactPermission && s.salesContactRequested
    requires Substantive(req)
    ensures (exists k :: 0 <= k < |InquiryCues| && Contains(Lower(Speech(req)), InquiryCues[k])) ==>
      GatherInput(s, req) == Outcome(PlayGather(Say(ServiceListReminder)), s, None)
    ensures !(exists k :: 0 <= k < |InquiryCues| && Contains(Lower(Speech(req)), InquiryCues[k])) ==>
      GatherInput(s, req) == Outcome(PlayGather(Say(FollowUpThanks)), s, None)
  {
    assert GatherInput(s, req) == Outcome(PlayGather(Say(FollowUpResponse(Speech(req)))), s, None);
  }
}
