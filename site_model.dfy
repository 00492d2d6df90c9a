/** The Site Eloquent model: mass assignment, the `name` accessor and the `creating` hook. */
module SiteModel {
  import opened Foundation

  /** The attributes `Site::fill` may assign. */
  const SiteFillable: set<string> := {"site_name", "domain", "is_active"}

  /** Mass assignment keeps exactly the fillable keys of the input, with their values. */
  function MassAssignable(input: map<string, Value>): (r: map<string, Value>)
    ensures forall k :: k in r <==> k in input && k in SiteFillable
    ensures forall k :: k in r ==> r[k] == input[k]
  {
    map k | k in input && k in SiteFillable :: input[k]
  }

  /** Whatever a request carries, mass assignment cannot set the API key. */
  lemma ApiKeyNotMassAssignable(input: map<string, Value>)
    ensures "api_key" !in MassAssignable(input)
    ensures MassAssignable(input).Keys <= SiteFillable
  {
  }

  /** A stored row of the sites table. */
  datatype SiteRecord = SiteRecord(id: nat, siteName: string, domain: string, isActive: bool, apiKey: Option<string>)

  /** A Site model instance. */
  class Site {
    var siteName: string
    var domain: string
    var isActive: bool
    var apiKey: Option<string>

    constructor (siteName: string, domain: string, isActive: bool, apiKey: Option<string>)
      ensures this.siteName == siteName && this.domain == domain
      ensures this.isActive == isActive && this.apiKey == apiKey
    {
      this.siteName := siteName;
      this.domain := domain;
      this.isActive := isActive;
      this.apiKey := apiKey;
    }

    /** The `name` accessor: always the site name. */
    function Name(): (n: string)
      reads this
      ensures n == siteName
    {
      siteName
    }

    /**
     * The `creating` hook. An empty key (null, "" or "0", as PHP's empty()
     * sees it) is replaced by `freshKey`, a Str::uuid string of 36
     * characters; a non-empty key is kept. The domain is lower-cased.
     */
    method Creating(freshKey: string)
      requires |freshKey| == 36
      modifies this`apiKey, this`domain
      ensures IsFalsy(old(apiKey)) ==> apiKey == Some(freshKey)
      ensures !IsFalsy(old(apiKey)) ==> apiKey == old(apiKey)
      ensures !IsFalsy(apiKey)
      ensures domain == ToLower(old(domain)) && IsLower(domain)
    {
      if IsFalsy(apiKey) {
        apiKey := Some(freshKey);
      }
      domain := ToLower(domain);
    }
  }
}
