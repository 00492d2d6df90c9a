/**
 * StoreLeadRequest: the 1 MiB body limit checked before validation, then
 * the form_name / form_data / submitted_at rules.
 */
module StoreLeadRequest {
  import opened Foundation

  /** 1 MiB: the largest body accepted, in bytes. */
  const MaxBodyBytes: nat := 1024 * 1024
  const PayloadTooLargeMessage: string := "Payload Too Large: Request body exceeds 1MB limit."
  const MaxFormNameLength: nat := 255

  /**
   * A POST /api/leads request as the form request sees it: the raw body's
   * length in bytes and the three top-level fields (None when absent).
   */
  datatype LeadSubmission = LeadSubmission(
    bodyLength: nat,
    formName: Option<Value>,
    formData: Option<Value>,
    submittedAt: Option<Value>)

  /** What `input('submitted_at', now())` will see: absent, an explicit null, or a string. */
  datatype SubmittedAt = Omitted | ExplicitNull | Given(text: string)

  /** The validated fields the controller reads. */
  datatype ValidatedLead = ValidatedLead(formName: string, formData: Value, submittedAt: SubmittedAt)

  /** The validated request fields, named as in the request body. */
  datatype Field = FormNameField | FormDataField | SubmittedAtField
  {
    function Key(): (k: string)
      ensures k in {"form_name", "form_data", "submitted_at"}
    {
      match this
      case FormNameField => "form_name"
      case FormDataField => "form_data"
      case SubmittedAtField => "submitted_at"
    }
  }

  datatype RequestOutcome =
    | PayloadTooLarge
    | Invalid(fields: seq<Field>)
    | Valid(lead: ValidatedLead)

  /** Laravel skips rules other than `required` for a blank string. */
  predicate IsBlank(v: Value)
  {
    v.Str? && Trim(v.s) == []
  }

  /** `form_name`: required, string, max:255. */
  predicate FormNameOk(v: Option<Value>)
  {
    v.Some? && IsPresentValue(v.value) && v.value.Str? && |v.value.s| <= MaxFormNameLength
  }

  /** `form_data`: required, array (so an empty array fails `required`). */
  predicate FormDataOk(v: Option<Value>)
  {
    v.Some? && IsPresentValue(v.value) && v.value.Arr?
  }

  /**
   * `submitted_at`: nullable, date. Absent or null passes; a blank string
   * skips the `date` rule; any other value must be a string the date parser
   * accepts.
   */
  predicate SubmittedAtOk(parseDate: string -> Option<int>, v: Option<Value>)
  {
    v.None? || v.value.Null? || IsBlank(v.value) || (v.value.Str? && parseDate(v.value.s).Some?)
  }

  /** The names of the fields that fail their rules, in rule order. */
  function FieldErrors(parseDate: string -> Option<int>, sub: LeadSubmission): (errs: seq<Field>)
    ensures FormNameField in errs <==> !FormNameOk(sub.formName)
    ensures FormDataField in errs <==> !FormDataOk(sub.formData)
    ensures SubmittedAtField in errs <==> !SubmittedAtOk(parseDate, sub.submittedAt)
    ensures forall i, j :: 0 <= i < j < |errs| ==> errs[i] != errs[j]
  {
    (if FormNameOk(sub.formName) then [] else [FormNameField]) +
    (if FormDataOk(sub.formData) then [] else [FormDataField]) +
    (if SubmittedAtOk(parseDate, sub.submittedAt) then [] else [SubmittedAtField])
  }

  function SubmittedAtOf(v: Option<Value>): (r: SubmittedAt)
    ensures v.None? <==> r.Omitted?
    ensures r.Given? ==> v == Some(Str(r.text))
  {
    if v.None? then Omitted
    else if v.value.Str? then Given(v.value.s)
    else ExplicitNull
  }

  /**
   * prepareForValidation, then the rules: an oversized body aborts with 413
   * before any rule runs; otherwise the request is valid exactly when every
   * field passes, and invalid with the failing fields otherwise.
   */
  function Validate(parseDate: string -> Option<int>, sub: LeadSubmission): (r: RequestOutcome)
    ensures r.PayloadTooLarge? <==> sub.bodyLength > MaxBodyBytes
    ensures r.Valid? <==>
      sub.bodyLength <= MaxBodyBytes && FormNameOk(sub.formName) && FormDataOk(sub.formData) &&
      SubmittedAtOk(parseDate, sub.submittedAt)
    ensures r.Invalid? ==> r.fields == FieldErrors(parseDate, sub) && |r.fields| > 0
    ensures r.Valid? ==>
      sub.formName == Some(Str(r.lead.formName)) && |r.lead.formName| <= MaxFormNameLength &&
      sub.formData == Some(r.lead.formData) && r.lead.formData.Arr? && |r.lead.formData.entries| > 0 &&
      r.lead.submittedAt == SubmittedAtOf(sub.submittedAt)
  {
    if sub.bodyLength > MaxBodyBytes then PayloadTooLarge
    else
      var errs := FieldErrors(parseDate, sub);
      if |errs| > 0 then Invalid(errs)
      else
        assert FormNameOk(sub.formName) && FormDataOk(sub.formData) by {
          assert FormNameField !in errs && FormDataField !in errs;
        }
        Valid(ValidatedLead(sub.formName.value.s, sub.formData.value, SubmittedAtOf(sub.submittedAt)))
  }

  /** The size check wins over every field rule, and a body of exactly 1 MiB passes it. */
  lemma SizeBoundary(parseDate: string -> Option<int>)
    ensures Validate(parseDate, LeadSubmission(MaxBodyBytes + 1, None, None, None)) == PayloadTooLarge
    ensures Validate(parseDate, LeadSubmission(MaxBodyBytes, None, None, None)) == Invalid([FormNameField, FormDataField])
  {
  }

  /** A string or an empty array is not acceptable form data. */
  lemma FormDataMustBeNonEmptyArray(parseDate: string -> Option<int>, n: nat, name: string, text: string)
    requires n <= MaxBodyBytes && Trim(name) != [] && |name| <= MaxFormNameLength
    ensures Validate(parseDate, LeadSubmission(n, Some(Str(name)), Some(Str(text)), None)) == Invalid([FormDataField])
    ensures Validate(parseDate, LeadSubmission(n, Some(Str(name)), Some(Arr([])), None)) == Invalid([FormDataField])
  {
  }

  /** form_name may have 255 characters but not 256. */
  lemma FormNameLengthBoundary(parseDate: string -> Option<int>, n: nat, name: string, entries: seq<(string, Value)>)
    requires n <= MaxBodyBytes && Trim(name) != [] && |entries| > 0
    ensures |name| == 255 ==> Validate(parseDate, LeadSubmission(n, Some(Str(name)), Some(Arr(entries)), None)).Valid?
    ensures |name| == 256 ==>
      Validate(parseDate, LeadSubmission(n, Some(Str(name)), Some(Arr(entries)), None)) == Invalid([FormNameField])
  {
  }

  /** submitted_at may be absent or null; a string must parse as a date. */
  lemma SubmittedAtRule(parseDate: string -> Option<int>, n: nat, name: string, entries: seq<(string, Value)>, text: string)
    requires n <= MaxBodyBytes && Trim(name) != [] && |name| <= MaxFormNameLength && |entries| > 0
    requires Trim(text) != [] && parseDate(text).None?
    ensures Validate(parseDate, LeadSubmission(n, Some(Str(name)), Some(Arr(entries)), None)) ==
            Valid(ValidatedLead(name, Arr(entries), Omitted))
    ensures Validate(parseDate, LeadSubmission(n, Some(Str(name)), Some(Arr(entries)), Some(Null))) ==
            Valid(ValidatedLead(name, Arr(entries), ExplicitNull))
    ensures Validate(parseDate, LeadSubmission(n, Some(Str(name)), Some(Arr(entries)), Some(Str(text)))) ==
            Invalid([SubmittedAtField])
  {
    assert FormNameOk(Some(Str(name))) && FormDataOk(Some(Arr(entries)));
    assert !SubmittedAtOk(parseDate, Some(Str(text)));
  }
}
