/** Concrete replies run through `gather_input`, showing the case-blind
    substring matching at work: a closing cue ends the call from every
    state, silence changes nothing, and a consent answer is read by the
    mere presence of an affirmative phrase. */
module Scenarios {
  import opened Optional
  import opened Strings
  import opened Responses
  import opened Conversation

  /** A reply starting with a non-blank character gets past the
      `user_input.strip()` guard. */
  lemma NonBlank(speech: string)
    requires speech != [] && !IsSpace(speech[0])
    ensures Strip(speech) != []
  {
    StripEmptyIffBlank(speech);
  }

  /** "Thank you so much" is a non-blank reply holding "thank you". */
  lemma ThankYouReads(speech: string)
    requires speech == "Thank you so much"
    ensures HasSpeech(Request(Post, Some(speech))) && IsClosing(speech)
  {
    NonBlank(speech);
    var low := Lower(speech);
    assert low[..9] == "thank you";
    assert OccursAt("thank you", low, 0);
    ContainsIffOccurs(low, "thank you");
    assert Contains(low, ClosingCues[0]);
  }

  /** "Thank you so much", in any state, is thanked and hung up on, and
      the session is left as it was. */
  lemma ThankYouEndsCall(s: Session, speech: string)
    requires speech == "Thank you so much"
    ensures GatherInput(s, Request(Post, Some(speech))) == Outcome(PlayHangup(Say(Farewell)), s, None)
  {
    ThankYouReads(speech);
  }

  /** "Yes, thanks" is a non-blank reply holding "thanks". */
  lemma YesThanksReads(speech: string)
    requires speech == "Yes, thanks"
    ensures HasSpeech(Request(Post, Some(speech))) && IsClosing(speech)
  {
    NonBlank(speech);
    var low := Lower(speech);
    assert low[5..11] == "thanks";
    assert OccursAt("thanks", low, 5);
    ContainsIffOccurs(low, "thanks");
    assert Contains(low, ClosingCues[1]);
  }

  /** An affirmative answer that also says "thanks" ends the call before
      the consent is read: nothing is logged and the flag stays down. */
  lemma ThanksBeatsConsent(s: Session, speech: string)
    requires s.previousQuestion == SalesContactPermission && !s.salesContactRequested
    requires speech == "Yes, thanks"
    ensures GatherInput(s, Request(Post, Some(speech))) == Outcome(PlayHangup(Say(Farewell)), s, None)
  {
    YesThanksReads(speech);
  }

  /** A GET, a missing transcript or an all-blank one only listens again,
      in any state, and changes nothing. */
  lemma BlankChangesNothing(s: Session, req: Request)
    requires || req.verb == Get
             || req.speechResult.None?
             || forall i :: 0 <= i < |Speech(req)| ==> IsSpace(Speech(req)[i])
    ensures GatherInput(s, req) == Outcome(GatherOnly, s, None)
  {
    StripEmptyIffBlank(Speech(req));
  }

  /** Each character of an occurrence is a character of the haystack. */
  lemma OccursChar(needle: string, hay: string, i: int, k: int)
    requires OccursAt(needle, hay, i) && 0 <= k < |needle|
    ensures hay[i + k] == needle[k] && needle[k] in hay
  {
    assert hay[i..i + |needle|][k] == hay[i + k];
  }

  /** A needle holding a letter the haystack lacks does not occur in it. */
  lemma AbsentLetter(hay: string, needle: string, k: int)
    requires 0 <= k < |needle| && needle[k] !in hay
    ensures !Contains(hay, needle)
  {
    ContainsIffOccurs(hay, needle);
    forall i | OccursAt(needle, hay, i)
      ensures false
    {
      OccursChar(needle, hay, i, k);
    }
  }

  /** Both closing cues start with 't', so speech without that letter
      never closes the call. */
  lemma NoLetterTIsNotClosing(speech: string)
    requires 't' !in Lower(speech)
    ensures !IsClosing(speech)
  {
    AbsentLetter(Lower(speech), "thank you", 0);
    AbsentLetter(Lower(speech), "thanks", 0);
    assert ClosingCues == ["thank you", "thanks"];
  }

  /** Both overview cues hold a 'v', so speech without that letter never
      asks for the overview. */
  lemma NoLetterVIsNoOverview(speech: string)
    requires 'v' !in Lower(speech)
    ensures !ContainsAny(Lower(speech), OverviewCues)
  {
    AbsentLetter(Lower(speech), "overall", 1);
    AbsentLetter(Lower(speech), "overview", 1);
    assert OverviewCues == ["overall", "overview"];
  }

  /** "Payroll" lowercases to "payroll". */
  lemma PayrollLower(speech: string)
    requires speech == "Payroll"
    ensures Lower(speech) == "payroll"
  {
    var low := Lower(speech);
    forall i | 0 <= i < 7
      ensures low[i] == "payroll"[i]
    {
    }
  }

  /** "payroll" names payroll and none of the keys declared before it:
      it lacks the 'b' of bookkeeping, the 'f' of financial statements,
      the 'u' of auditing and the 't' of tax preparation. It has no 'v'
      either. */
  lemma PayrollLetters(low: string)
    requires low == "payroll"
    ensures 't' !in low && 'v' !in low
    ensures Contains(low, "payroll")
    ensures forall j :: 0 <= j < 4 ==> !Mentions(low, j)
  {
    assert OccursAt("payroll", low, 0);
    ContainsIffOccurs(low, "payroll");
    AbsentLetter(low, Key(Catalogue[0]), 0);
    AbsentLetter(low, Key(Catalogue[1]), 0);
    AbsentLetter(low, Key(Catalogue[2]), 1);
    AbsentLetter(low, Key(Catalogue[3]), 0);
  }

  /** "Payroll" is a substantive reply that asks for no overview and
      names payroll, the fifth catalogue entry, and none before it. */
  lemma PayrollReads(speech: string)
    requires speech == "Payroll"
    ensures Substantive(Request(Post, Some(speech)))
    ensures !ContainsAny(Lower(speech), OverviewCues)
    ensures Mentions(Lower(speech), 4) && forall j :: 0 <= j < 4 ==> !Mentions(Lower(speech), j)
  {
    NonBlank(speech);
    PayrollLower(speech);
    PayrollLetters(Lower(speech));
    NoLetterTIsNotClosing(speech);
    NoLetterVIsNoOverview(speech);
    assert Mentions(Lower(speech), 4);
  }

  /** As the first reply of a call, "Payroll" is answered with the payroll
      description followed by the consent question. */
  lemma PayrollPitch(s: Session, speech: string)
    requires s.previousQuestion == NoQuestion
    requires speech == "Payroll"
    ensures GatherInput(s, Request(Post, Some(speech))).action
            == PlayGather(Pitch(ServiceDetails(Payroll), s.customerName))
  {
    PayrollReads(speech);
  }

  /** "No, I'm okay" lowercases to "no, i'm okay". */
  lemma PoliteRefusalLower(speech: string)
    requires speech == "No, I'm okay"
    ensures Lower(speech) == "no, i'm okay"
  {
  }

  /** "no, i'm okay" holds "okay" but no letter 't'. */
  lemma PoliteRefusalLetters(low: string)
    requires low == "no, i'm okay"
    ensures 't' !in low
    ensures Contains(low, "okay")
  {
    assert OccursAt("okay", low, 8);
    ContainsIffOccurs(low, "okay");
  }

  /** "No, I'm okay" is a reply the conversation context decides, and it
      holds the affirmative phrase "okay". */
  lemma PoliteRefusalReads(speech: string)
    requires speech == "No, I'm okay"
    ensures Substantive(Request(Post, Some(speech)))
    ensures IsAffirmative(speech)
  {
    NonBlank(speech);
    PoliteRefusalLower(speech);
    PoliteRefusalLetters(Lower(speech));
    NoLetterTIsNotClosing(speech);
    assert Contains(Lower(speech), AffirmativeCues[2]);
  }

  /** There is no negative vocabulary: the polite refusal "No, I'm okay"
      holds "okay", so it is taken as consent and logged. */
  lemma PoliteRefusalIsConsent(s: Session, speech: string)
    requires s.previousQuestion == SalesContactPermission && !s.salesContactRequested
    requires speech == "No, I'm okay"
    ensures GatherInput(s, Request(Post, Some(speech))).logged
            == Some(ConsentEvent(s.customerName, s.customerPhone))
  {
    PoliteRefusalReads(speech);
  }
}
