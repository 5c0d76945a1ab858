/** The three reply generators of the call controller (main.py):
    `generate_sales_response` over the fixed six-entry service catalogue,
    `generate_follow_up_response`, and `handle_sales_contact_consent`. All
    of them lowercase the caller's speech and look for fixed phrases in it. */
module Responses {
  import opened Optional
  import opened Strings

  /** The six services of the catalogue. */
  datatype ServiceId =
    | Bookkeeping
    | FinancialStatements
    | Auditing
    | TaxPreparation
    | Payroll
    | ManagementReporting

  /** The catalogue, in declaration order (a Python dict keeps insertion
      order, and both the overview and the first-match search follow it). */
  const Catalogue: seq<ServiceId> :=
    [Bookkeeping, FinancialStatements, Auditing, TaxPreparation, Payroll, ManagementReporting]

  /** The key the caller has to say to ask about a service. */
  function Key(id: ServiceId): string
  {
    match id
    case Bookkeeping => "bookkeeping"
    case FinancialStatements => "financial statements"
    case Auditing => "auditing"
    case TaxPreparation => "tax preparation"
    case Payroll => "payroll"
    case ManagementReporting => "management reporting"
  }

  /** What is read out about a service. */
  function Description(id: ServiceId): string
  {
    match id
    case Bookkeeping => "We offer comprehensive bookkeeping and accounting services starting at $15 per hour, including managing accounts receivable and payable, credit card reconciliation, and year-end closings."
    case FinancialStatements => "We prepare accurate financial statements like Income Statements, Balance Sheets, and Cash Flow Statements to help you understand your financial position."
    case Auditing => "Our internal and external auditing services ensure your financial records' accuracy and compliance with regulations."
    case TaxPreparation => "We provide tax services that meet all regulations while minimizing liabilities and offer strategies for future tax planning."
    case Payroll => "Our payroll services include wage calculations, tax withholdings, and timely salary payments while ensuring full compliance."
    case ManagementReporting => "We offer detailed management reporting and financial analysis to provide insights into your business performance."
  }

  /** The descriptions of `ids`, in order. */
  function DescriptionsOf(ids: seq<ServiceId>): (ds: seq<string>)
    ensures |ds| == |ids|
    ensures forall k :: 0 <= k < |ids| ==> ds[k] == Description(ids[k])
  {
    if ids == [] then [] else [Description(ids[0])] + DescriptionsOf(ids[1..])
  }

  /** The catalogue's descriptions, in declaration order. */
  const Descriptions: seq<string> := DescriptionsOf(Catalogue)

  /** The tag returned with the overview instead of a service key. */
  const OverviewTag := "overview"

  /** Phrases asking for the overview of every service. */
  const OverviewCues: seq<string> := ["overall", "overview"]

  /** Phrases that, after consent was given, ask for more services. */
  const InquiryCues: seq<string> := ["more", "services", "anything else", "other services", "additional services"]

  /** Phrases read as agreement to be contacted by the sales person. There
      is no negative list: anything else is a decline. */
  const AffirmativeCues: seq<string> := ["yes", "sure", "okay", "fine", "cool", "alright", "no problem"]

  /** The fixed replies the controller reads out, by what they say; their
      wording is `LineText`. */
  datatype Line =
    | ServiceDetails(service: ServiceId)
    | ServicesOverview
    | ClarifyingPrompt
    | ServiceListReminder
    | FollowUpThanks
    | ConsentGranted
    | ConsentDeclined
    | Farewell

  /** The overview: every description, one per line, in catalogue order
      (`"\n".join(services.values())`). */
  function OverviewText(): string
  {
    Join(Descriptions, '\n')
  }

  /** The wording of each reply. */
  function LineText(l: Line): string
  {
    match l
    case ServiceDetails(id) => Description(id)
    case ServicesOverview => OverviewText()
    case ClarifyingPrompt => "Is there a particular service you are interested in, or would you like an overview of our offerings?"
    case ServiceListReminder => "We offer a range of services including bookkeeping, financial statements, tax preparation, payroll, and more. Do you have any specific questions about these services?"
    case FollowUpThanks => "Thank you for your time! If you have any other queries, feel free to reach out to us."
    case ConsentGranted => "Great! Our Sales Person will connect with you soon. Thank you!"
    case ConsentDeclined => "Thank you for your time! If you have any questions, feel free to reach out to us."
    case Farewell => "Thank you for your time!"
  }

  /** The lowercased speech names the catalogue key at position `k`. */
  predicate Mentions(low: string, k: int)
    requires 0 <= k < |Catalogue|
  {
    Contains(low, Key(Catalogue[k]))
  }

  /** The first catalogue position at or after `from` whose key the
      lowercased speech names, if any. */
  function FirstMention(low: string, from: nat): (r: Option<nat>)
    requires from <= |Catalogue|
    ensures r.Some? ==> && from <= r.value < |Catalogue|
                        && Mentions(low, r.value)
                        && forall j :: from <= j < r.value ==> !Mentions(low, j)
    ensures r.None? ==> forall j :: from <= j < |Catalogue| ==> !Mentions(low, j)
    decreases |Catalogue| - from
  {
    if from == |Catalogue| then None
    else if Mentions(low, from) then Some(from)
    else FirstMention(low, from + 1)
  }

  /** `generate_sales_response`: the overview (tagged "overview") when the
      speech asks for it, which wins over any service it also names;
      otherwise the description and key of the first catalogue entry, in
      declaration order, whose key it names; otherwise the clarifying
      prompt with no tag. */
  function SalesResponse(speech: string): (r: (Line, Option<string>))
    ensures var low := Lower(speech);
      ContainsAny(low, OverviewCues) ==> r == (ServicesOverview, Some(OverviewTag))
    ensures var low := Lower(speech);
      !ContainsAny(low, OverviewCues) ==>
        forall k :: 0 <= k < |Catalogue| && Mentions(low, k)
                    && (forall j :: 0 <= j < k ==> !Mentions(low, j))
          ==> r == (ServiceDetails(Catalogue[k]), Some(Key(Catalogue[k])))
    ensures var low := Lower(speech);
      (!ContainsAny(low, OverviewCues) &&
       forall k :: 0 <= k < |Catalogue| ==> !Mentions(low, k))
        ==> r == (ClarifyingPrompt, None)
  {
    var low := Lower(speech);
    if ContainsAny(low, OverviewCues) then
      (ServicesOverview, Some(OverviewTag))
    else
      match FirstMention(low, 0)
      case Some(k) => (ServiceDetails(Catalogue[k]), Some(Key(Catalogue[k])))
      case None => (ClarifyingPrompt, None)
  }

  /** `generate_follow_up_response`: the service-list reminder exactly when
      one of the inquiry phrases occurs in the lowercased speech, and the
      thank-you text otherwise. */
  function FollowUpResponse(speech: string): (r: Line)
    ensures r == ServiceListReminder || r == FollowUpThanks
    ensures r == ServiceListReminder <==>
      exists k :: 0 <= k < |InquiryCues| && Contains(Lower(speech), InquiryCues[k])
  {
    if ContainsAny(Lower(speech), InquiryCues) then ServiceListReminder else FollowUpThanks
  }

  /** `handle_sales_contact_consent`: consent is given exactly when some
      affirmative phrase occurs in the lowercased speech; the reply text
      follows the verdict. */
  function ConsentResponse(speech: string): (r: (Line, bool))
    ensures r.1 <==>
      exists k :: 0 <= k < |AffirmativeCues| && Contains(Lower(speech), AffirmativeCues[k])
    ensures r.0 == (if r.1 then ConsentGranted else ConsentDeclined)
  {
    if ContainsAny(Lower(speech), AffirmativeCues) then (ConsentGranted, true)
    else (ConsentDeclined, false)
  }

  /** The overview reads out every description of the catalogue. */
  lemma OverviewNamesEveryService()
    ensures forall k :: 0 <= k < |Catalogue| ==>
      Contains(OverviewText(), Description(Catalogue[k]))
  {
    DescriptionsJoined(Catalogue);
  }

  /** Joining the descriptions of any list of services keeps each of them. */
  lemma DescriptionsJoined(ids: seq<ServiceId>)
    ensures forall k :: 0 <= k < |ids| ==> Contains(Join(DescriptionsOf(ids), '\n'), Description(ids[k]))
  {
    JoinContainsParts(DescriptionsOf(ids), '\n');
  }
}
