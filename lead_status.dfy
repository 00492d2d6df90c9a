/** The three-valued lead status and its string backing values. */
module LeadStatusEnum {
  import opened Foundation

  datatype LeadStatus = New | Contacted | Converted
  {
    /** The backing string stored in the leads.status column. */
    function Value(): (s: string)
      ensures s in AllValues
    {
      match this
      case New => "new"
      case Contacted => "contacted"
      case Converted => "converted"
    }
  }

  const AllValues: set<string> := {"new", "contacted", "converted"}

  /** LeadStatus::tryFrom: the case backed by `s`, if any. */
  function TryFrom(s: string): (r: Option<LeadStatus>)
    ensures r.Some? ==> r.value.Value() == s
    ensures r.None? <==> s !in AllValues
  {
    if s == "new" then Some(New)
    else if s == "contacted" then Some(Contacted)
    else if s == "converted" then Some(Converted)
    else None
  }

  /** Case to string and back gives the same case. */
  lemma RoundTrip(status: LeadStatus)
    ensures TryFrom(status.Value()) == Some(status)
  {
  }

  /** The backing strings are pairwise distinct. */
  lemma ValuesAreDistinct(a: LeadStatus, b: LeadStatus)
    ensures a.Value() == b.Value() ==> a == b
  {
  }

  /** Exactly three cases, and their strings are exactly AllValues. */
  lemma ValuesCoverAllValues()
    ensures forall s :: s in AllValues <==> exists st: LeadStatus :: st.Value() == s
    ensures |AllValues| == 3
  {
    assert New.Value() == "new" && Contacted.Value() == "contacted" && Converted.Value() == "converted";
  }
}
