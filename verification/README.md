# Sales-agent call controller

A Dafny model of the conversation controller of the sales-agent voice bot.
The Flask application in `main.py` places an outbound call (`make_ai_call`)
and greets the customer (`greet_client`). It then answers every
transcribed reply of the caller in `gather_input`, one webhook request at a
time. The conversation state lives in four module-level globals:

- the customer's name;
- the customer's phone;
- `previous_question`;
- `sales_contact_requested`.

The model covers:

- **Session and step** (`conversation.dfy`). The globals are the
  immutable `Session`. One webhook request is the pure function
  `GatherInput(session, request)`. It returns an `Outcome`: the response
  action, the session afterwards, and the consent event that
  `log_customer_consent` would append, if any. There are three response
  actions:
  - say something and keep listening (`<Play>` + `<Gather>`);
  - say something and hang up (`<Play>` + `<Hangup>`);
  - only keep listening.
- **What is said**. An utterance is structured: the greeting, a pitch (a
  sales reply with the consent question appended), or a fixed reply.
  `Text` renders each one to the exact string handed to the speech
  synthesiser.
- **Reply generators** (`responses.dfy`). These are
  `generate_sales_response`, over the six-entry service catalogue in
  declaration order, `generate_follow_up_response` and
  `handle_sales_contact_consent`. Their replies are values of `Line`, and
  `LineText` holds the exact wording of each.
- **Python string operations** (`strings.dfy`). These are `lower()`,
  `strip()`, the substring test `in`, `any(...)` over a phrase list, and
  `"\n".join`.
- **Whole calls** (`calls.dfy`). A call is the reset of `make_ai_call`
  followed by any sequence of replies. The lemmas there state what holds
  over every such sequence:
  - consent is on record only after it was asked for;
  - neither flag ever goes back;
  - the consent question is asked exactly once, on the first substantive
    reply;
  - consent is logged at most once;
  - after a decline, the next reply is read as a consent answer again.
- **Concrete replies** (`scenarios.dfy`). These show the case-blind
  substring matching at work. "Yes, thanks" hangs up instead of recording
  consent. "No, I'm okay" is recorded as consent, because it contains
  "okay" and there is no list of negative phrases.

Behaviour of `main.py` that the model keeps:

- There is no "ended" conversation state. A closing cue ("thank you" or
  "thanks", in any case) hangs up from every state and leaves the globals
  as they were.
- A declined consent leaves the session unchanged. The next reply is again
  treated as an answer to the consent question; it does not move to
  post-consent handling.
- After consent, a reply without an inquiry phrase gets the thank-you text,
  but the call keeps listening. Only a closing cue hangs up.
- There is one global session shared by all calls, not one per call.
  `make_ai_call` overwrites all four globals.

## Model

| member | source | states |
|---|---|---|
| `Conversation.GatherInput` | main.py:83-135 | Only a non-blank POST reply gets a response; anything else only listens again and changes nothing. A closing cue hangs up from every state and changes nothing. The consent question is asked exactly when none was asked before and the reply is substantive. Consent is logged exactly when it is awaited and the reply holds an affirmative phrase, recording the current name and phone and raising the flag. Every other reply leaves the session as it was. The customer's details never change, and the state only moves forward. |
| `Conversation.PitchText` | main.py:110-114 | The first substantive reply gets a pitch addressed to the customer, and the call keeps listening. The pitch reads the overview when the lowercased reply holds "overall" or "overview", even if it also names a service. Otherwise it reads the description of the first catalogue entry whose key the reply contains. Otherwise it reads the clarifying prompt. |
| `Conversation.ConsentText` | main.py:102-109 | While consent is awaited: an affirmative reply is thanked with the "Sales Person will connect" text; a decline gets the decline text and leaves the session unchanged; the call keeps listening either way. |
| `Conversation.FollowUpText` | main.py:99-101 | After consent, a substantive reply holding one of the five inquiry phrases (lowercased) gets the service-list reminder, and any other substantive reply gets the thank-you text. Either way the call keeps listening, the session is unchanged and nothing is logged. |
| `Conversation.MakeAiCall` | main.py:41-50 | The reset sets the customer's name and phone as given, clears the previous question and the consent flag, and so starts every call in a state satisfying the invariant. |
| `Conversation.GreetClient` | main.py:64-81 | The greeting is played and the call listens; what is spoken opens with "Hello" and the current customer's name ("None" when none was given) and closes with the question which service interests them. No state changes. |
| `Conversation.GreetingText` | main.py:67-71 | The greeting starts with "Hello" and the customer's name ("None" when none was given) and ends with the question which service interests them. |
| `Responses.SalesResponse` | main.py:151-178 | An overview cue wins over any service the reply also names, giving the overview tagged "overview". Otherwise the reply gets the first catalogue entry, in declaration order, whose key it contains, with that key as tag. Otherwise it gets the clarifying prompt with no tag. |
| `Responses.FirstMention` | main.py:171-174 | The position found names the reply's key, and no earlier catalogue entry is named; when nothing is found, no entry from the start position on is named. |
| `Responses.FollowUpResponse` | main.py:180-187 | The reply is the service-list reminder exactly when some inquiry phrase occurs in the lowercased speech, and the thank-you text otherwise. |
| `Responses.ConsentResponse` | main.py:189-195 | Consent is given exactly when some affirmative phrase occurs in the lowercased speech, and the reply text matches the verdict. |
| `Responses.OverviewNamesEveryService` | main.py:165-168 | The overview reads out the description of every catalogue entry. |
| `Strings.Lower` | main.py:94 | Lowercasing keeps the length and lowercases each character in place. |
| `Strings.Strip` | main.py:90 | The stripped reply is no longer than the reply and neither starts nor ends with whitespace. |
| `Strings.StripEmptyIffBlank` | main.py:90 | `strip()` leaves nothing exactly when every character is whitespace, which is the truth test of the guard. |
| `Strings.StripIsSlice` | main.py:90 | What `strip()` keeps is a contiguous piece of the reply with only whitespace before and after it. |
| `Strings.ContainsIffOccurs` | main.py:94 | The substring test holds exactly when the phrase occurs at some position of the text. |
| `Strings.ContainsAny` | main.py:184 | `any(p in text for p in phrases)` holds exactly when some phrase of the list occurs in the text. |
| `Strings.JoinContainsParts` | main.py:168 | Every part of a join occurs in the joined text. |
| `Strings.SplitJoin` | main.py:168 | Splitting a join at the separator gives back the parts when no part holds the separator: the overview is the descriptions, one per line. |
| `Calls.RunKeepsInv` | main.py:99-114 | Over any sequence of replies, consent is never on record unless the consent question was asked. |
| `Calls.RunMonotone` | main.py:104-113 | Between any two points of a run, `previous_question` never returns to None and the consent flag never drops. |
| `Calls.PitchCount` | main.py:110-114 | From a fresh state the consent question is asked exactly once if some reply is substantive and never otherwise; once asked, it is never asked again. |
| `Calls.StillPrefix` | main.py:33-36 | While every reply leaves the globals as they were, each reply is answered from the starting state. |
| `Calls.FirstSubstantiveIsPitched` | main.py:87-114 | The replies before the first substantive one change nothing, and the first substantive one gets the pitch. |
| `Calls.LogCount` | main.py:102-106 | At most one consent event is logged per run, and none once consent is on record. |
| `Calls.ConsentAwaited` | main.py:102-109 | While consent is awaited, a decline, a closing cue or silence leaves the state as it was, so the next reply is again a consent answer; a reply is logged exactly when it is substantive and affirmative. |
| `Calls.BeforeFirstCall` | main.py:33-36 | Replies that reach the controller before any call was placed start from the initial globals, and the invariant holds after each of them. |
| `Calls.CallProperties` | main.py:47-50 | Over a whole call from the reset: the invariant holds throughout, the consent question is asked once exactly when some reply is substantive, and consent is logged at most once. |
| `Scenarios.ThankYouEndsCall` | main.py:93-96 | "Thank you so much" hangs up with the farewell from every state and changes nothing. |
| `Scenarios.ThanksBeatsConsent` | main.py:93-105 | "Yes, thanks" while consent is awaited hangs up: no consent is logged and the flag stays down. |
| `Scenarios.BlankChangesNothing` | main.py:87-135 | A GET, a missing `SpeechResult` or a transcript of whitespace only gets nothing but another `<Gather>`, in every state, and changes no state and logs nothing. |
| `Scenarios.PayrollPitch` | main.py:170-174 | As the first reply, "Payroll" gets the payroll description with the consent question appended. |
| `Scenarios.PoliteRefusalIsConsent` | main.py:191-193 | "No, I'm okay" while consent is awaited is logged as consent, because it holds "okay". |

## Left out

- Flask routing and the TwiML markup. Responses are the three abstract actions above. The request method and the optional `SpeechResult` field are the inputs.
- Placing the call through Twilio (main.py:52-62) and its success and error replies. Only the state reset of `make_ai_call` is modelled.
- `generate_voice` and the ElevenLabs client (app/elevenlabs.py). An utterance's text is what would be synthesised; audio URLs and files are not modelled.
- `Conversation.GatherInput` treats speech synthesis as total. `generate_voice` raises on a non-200 status, an unexpected content type or unparsable JSON (app/elevenlabs.py:44-49). Nothing in main.py catches that (main.py:72, 119, 199), so the request fails with a server error instead of `<Play>`/`<Gather>`. The state change of that reply stays: `previous_question` is set before synthesis (main.py:113), and consent is logged and the flag raised before it (main.py:105-106). So a consent question the caller never heard still counts as asked. A JSON reply without a `url` makes `generate_voice` return `None` (app/elevenlabs.py:42), and main.py:123 then emits `<Play>None</Play>`, an audio URL that nothing serves (only `/output_audio.mp3` is served, main.py:137). None of these failure paths is modelled.
- `serve_audio` (main.py:137-148): file I/O only.
- `log_customer_consent` (main.py:208-235). The Excel append is modelled as the `ConsentEvent` in the outcome, holding the name and phone. The time stamp comes from the clock and is not modelled, and neither are file errors.
- Logging calls, environment variables and process start-up.
- Concurrency. Flask may serve requests in parallel, and all calls share the one set of globals. The model applies requests one at a time in the order given.
- `Strings.Lower`: only ASCII letters are lowercased. Python's `lower()` also maps non-ASCII capitals, which cannot turn a reply into one of the all-ASCII cue phrases except through rare special cases, such as the Kelvin sign lowering to 'k'.
- `Responses.OverviewNamesEveryService`: states that the overview contains every description. That it is exactly the descriptions one per line is `Strings.SplitJoin` for any parts free of the separator; it is not proved for the six catalogue texts themselves.
- `Conversation.GreetingText`, `Conversation.GreetClient`: state the greeting's wording as a prefix and a suffix, not character by character.
