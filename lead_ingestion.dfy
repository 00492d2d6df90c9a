/**
 * POST /api/leads end to end: the API-key middleware, the StoreLeadRequest
 * form request, and Api\LeadController::__invoke creating one lead.
 */
module LeadIngestion {
  import opened Foundation
  import opened EmailFlagDetector
  import opened LeadModel
  import opened SiteModel
  import opened ApiKeyGate
  import opened StoreLeadRequest

  const FailedToStoreMessage: string := "Failed to store lead."

  /** The JSON responses the endpoint can give. */
  datatype ApiResponse =
    | Created(leadId: nat)
    | StoreFailed
    | KeyRejected(message: string)
    | TooLarge
    | Unprocessable(fields: seq<Field>)
  {
    function Status(): (code: int)
      ensures code in {201, 500, 401, 413, 422}
    {
      match this
      case Created(_) => 201
      case StoreFailed => 500
      case KeyRejected(_) => 401
      case TooLarge => 413
      case Unprocessable(_) => 422
    }

    /** The `success` flag of the controller's own responses. */
    function Success(): (b: Option<bool>)
      ensures b == Some(true) <==> Created?
      ensures b == Some(false) <==> StoreFailed?
    {
      match this
      case Created(_) => Some(true)
      case StoreFailed => Some(false)
      case _ => None
    }

    /** The `message` of the responses the model composes itself. */
    function Message(): (m: Option<string>)
      ensures m.None? <==> Created? || Unprocessable?
      ensures StoreFailed? ==> m == Some(FailedToStoreMessage)
      ensures TooLarge? ==> m == Some(PayloadTooLargeMessage)
    {
      match this
      case StoreFailed => Some(FailedToStoreMessage)
      case KeyRejected(message) => Some(message)
      case TooLarge => Some(PayloadTooLargeMessage)
      case _ => None
    }
  }

  /** `input('submitted_at', now())` as stored by the datetime cast. */
  function SubmissionTime(parseDate: string -> Option<int>, now: int, s: SubmittedAt): (t: Option<int>)
    ensures s.Omitted? ==> t == Some(now)
    ensures s.ExplicitNull? ==> t.None?
    ensures s.Given? ==> t == parseDate(s.text)
  {
    match s
    case Omitted => Some(now)
    case ExplicitNull => None
    case Given(text) => parseDate(text)
  }

  /** The attribute array the controller hands to Lead::create. */
  function IncomingAttributes(parseDate: string -> Option<int>, now: int, site: SiteRecord, lead: ValidatedLead,
                              ipAddress: Option<string>, userAgent: Option<string>): (a: LeadAttributes)
    ensures a.siteId == site.id && a.status == "new"
    ensures a.formName == lead.formName && a.formData == lead.formData
    ensures a.ipAddress == ipAddress && a.userAgent == userAgent
    ensures a.submittedAt == SubmissionTime(parseDate, now, lead.submittedAt)
    ensures a.flagReason.None? && a.flaggedAt.None?
  {
    LeadAttributes(site.id, lead.formName, lead.formData, "new", ipAddress, userAgent,
                   SubmissionTime(parseDate, now, lead.submittedAt), None, None)
  }

  /**
   * Api\LeadController::__invoke: create the lead and answer 201 with its
   * id, or 500 when the write throws (nothing is then stored).
   */
  method Invoke(store: LeadStore, site: SiteRecord, lead: ValidatedLead,
                ipAddress: Option<string>, userAgent: Option<string>,
                valid: string -> bool, parseDate: string -> Option<int>, now: int, writeFails: bool)
    returns (response: ApiResponse)
    requires store.Valid() && EmailValidator(valid)
    modifies store
    ensures store.Valid()
    ensures writeFails ==>
      response == StoreFailed && store.rows == old(store.rows) && store.nextId == old(store.nextId)
    ensures !writeFails ==>
      response == Created(old(store.nextId)) &&
      store.rows == old(store.rows) +
        [CreatedRecord(valid, now, old(store.nextId), IncomingAttributes(parseDate, now, site, lead, ipAddress, userAgent))]
  {
    var attributes := IncomingAttributes(parseDate, now, site, lead, ipAddress, userAgent);
    var id := Create(store, attributes, valid, now, writeFails);
    if id.None? {
      return StoreFailed;
    }
    response := Created(id.value);
  }

  /**
   * The whole route: the API-key gate, then the form request (size check
   * first, then the rules), then the controller. Only a 201 stores anything.
   */
  method HandleSubmission(store: LeadStore, sites: seq<SiteRecord>, apiKey: Option<string>, submission: LeadSubmission,
                          ipAddress: Option<string>, userAgent: Option<string>,
                          valid: string -> bool, parseDate: string -> Option<int>, now: int, writeFails: bool)
    returns (response: ApiResponse)
    requires store.Valid() && EmailValidator(valid)
    modifies store
    ensures store.Valid()
    ensures !response.Created? ==> store.rows == old(store.rows)
    ensures response.Created? ==> |store.rows| == |old(store.rows)| + 1
    ensures Handle(apiKey, sites).Unauthorized? ==> response == KeyRejected(Handle(apiKey, sites).message)
    ensures Handle(apiKey, sites).Forward? && submission.bodyLength > MaxBodyBytes ==> response == TooLarge
    ensures Handle(apiKey, sites).Forward? && Validate(parseDate, submission).Invalid? ==>
      response == Unprocessable(Validate(parseDate, submission).fields)
    ensures Handle(apiKey, sites).Forward? && Validate(parseDate, submission).Valid? ==>
      var attributes := IncomingAttributes(parseDate, now, Handle(apiKey, sites).site,
                                           Validate(parseDate, submission).lead, ipAddress, userAgent);
      (writeFails ==> response == StoreFailed) &&
      (!writeFails ==> response == Created(old(store.nextId)) &&
                       store.rows == old(store.rows) + [CreatedRecord(valid, now, old(store.nextId), attributes)])
  {
    var gate := Handle(apiKey, sites);
    if gate.Unauthorized? {
      return KeyRejected(gate.message);
    }
    var outcome := Validate(parseDate, submission);
    match outcome {
      case PayloadTooLarge =>
        response := TooLarge;
      case Invalid(fields) =>
        response := Unprocessable(fields);
      case Valid(lead) =>
        response := Invoke(store, gate.site, lead, ipAddress, userAgent, valid, parseDate, now, writeFails);
    }
  }

  /**
   * The row a successful submission stores: status "new", the gate's site,
   * the form data as submitted, submitted_at defaulting to now, and the flag
   * the detector gives the extracted email (flagged_at set with it).
   */
  lemma CreatedLeadFields(valid: string -> bool, parseDate: string -> Option<int>, now: int, id: nat,
                          site: SiteRecord, lead: ValidatedLead, ipAddress: Option<string>, userAgent: Option<string>)
    requires EmailValidator(valid)
    ensures var r := CreatedRecord(valid, now, id, IncomingAttributes(parseDate, now, site, lead, ipAddress, userAgent));
      var reason := Detect(valid, ExtractEmail(valid, lead.formData));
      r.id == id && r.attrs.status == "new" && r.attrs.siteId == site.id &&
      r.attrs.formName == lead.formName && r.attrs.formData == lead.formData &&
      (lead.submittedAt.Omitted? ==> r.attrs.submittedAt == Some(now)) &&
      (reason.Some? ==> r.attrs.flagReason == Some(reason.value.Name()) && r.attrs.flaggedAt == Some(now)) &&
      (reason.None? ==> r.attrs.flagReason.None? && r.attrs.flaggedAt.None?)
  {
    var email := ExtractEmail(valid, lead.formData);
    if email.None? {
      assert !Checkable(valid, email);
    }
  }
}
