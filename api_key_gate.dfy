/**
 * The site.api_key middleware: the X-API-Key header must be truthy and
 * belong to an active site, which is then attached to the request.
 */
module ApiKeyGate {
  import opened Foundation
  import opened SiteModel

  const MissingKeyMessage: string := "API key is required."
  const InvalidKeyMessage: string := "Invalid or inactive API key."

  /** A 401 JSON response with a message, or the request forwarded with the resolved site. */
  datatype GateResult = Unauthorized(message: string) | Forward(site: SiteRecord)

  predicate ActiveWithKey(site: SiteRecord, key: string)
  {
    site.isActive && site.apiKey == Some(key)
  }

  /**
   * `Site::where('api_key', $key)->where('is_active', true)->first()`: the
   * first active site with the key, in table order.
   */
  function FirstActiveWithKey(sites: seq<SiteRecord>, key: string): (r: Option<SiteRecord>)
    ensures r.None? <==> forall i :: 0 <= i < |sites| ==> !ActiveWithKey(sites[i], key)
    ensures r.Some? ==> exists i :: 0 <= i < |sites| && sites[i] == r.value && ActiveWithKey(sites[i], key) &&
                                    forall k :: 0 <= k < i ==> !ActiveWithKey(sites[k], key)
    decreases |sites|
  {
    if |sites| == 0 then None
    else if ActiveWithKey(sites[0], key) then Some(sites[0])
    else
      var r := FirstActiveWithKey(sites[1..], key);
      assert forall i :: 0 <= i < |sites| - 1 ==> sites[1..][i] == sites[i + 1];
      assert r.Some? ==> exists i :: 0 <= i < |sites| && sites[i] == r.value && ActiveWithKey(sites[i], key) &&
                                     forall k :: 0 <= k < i ==> !ActiveWithKey(sites[k], key) by {
        if r.Some? {
          var i :| 0 <= i < |sites[1..]| && sites[1..][i] == r.value && ActiveWithKey(sites[1..][i], key) &&
                   forall k :: 0 <= k < i ==> !ActiveWithKey(sites[1..][k], key);
          assert forall k :: 0 <= k < i + 1 ==> !ActiveWithKey(sites[k], key) by {
            forall k | 0 <= k < i + 1 ensures !ActiveWithKey(sites[k], key) {
              if k > 0 {
                assert sites[k] == sites[1..][k - 1];
              }
            }
          }
        }
      }
      r
  }

  /** EnsureSiteApiKeyIsValid::handle, without its logging. */
  function Handle(header: Option<string>, sites: seq<SiteRecord>): (r: GateResult)
    ensures IsFalsy(header) <==> r == Unauthorized(MissingKeyMessage)
    ensures r == Unauthorized(InvalidKeyMessage) <==>
      !IsFalsy(header) && forall i :: 0 <= i < |sites| ==> !ActiveWithKey(sites[i], header.value)
    ensures r.Unauthorized? || r.Forward?
    ensures r.Forward? ==>
      !IsFalsy(header) &&
      exists i :: 0 <= i < |sites| && sites[i] == r.site && ActiveWithKey(sites[i], header.value) &&
                  forall k :: 0 <= k < i ==> !ActiveWithKey(sites[k], header.value)
  {
    if IsFalsy(header) then Unauthorized(MissingKeyMessage)
    else
      var site := FirstActiveWithKey(sites, header.value);
      if site.None? then Unauthorized(InvalidKeyMessage) else Forward(site.value)
  }

  /** An inactive site is invisible to the lookup, wherever it sits in the table. */
  lemma {:induction false} InactiveSiteIsInvisible(key: string, before: seq<SiteRecord>, inactive: SiteRecord, after: seq<SiteRecord>)
    requires !inactive.isActive
    ensures FirstActiveWithKey(before + [inactive] + after, key) == FirstActiveWithKey(before + after, key)
    decreases |before|
  {
    if |before| == 0 {
      assert before + [inactive] + after == [inactive] + after;
      assert ([inactive] + after)[1..] == after;
      assert before + after == after;
    } else {
      assert (before + [inactive] + after)[0] == before[0];
      assert (before + after)[0] == before[0];
      assert (before + [inactive] + after)[1..] == before[1..] + [inactive] + after;
      assert (before + after)[1..] == before[1..] + after;
      InactiveSiteIsInvisible(key, before[1..], inactive, after);
    }
  }

  /**
   * So a key held only by an inactive site gets the very answer the same
   * table without that site gives; with no other site holding it, that is
   * the unknown-key answer.
   */
  lemma InactiveKeyLikeUnknownKey(key: string, before: seq<SiteRecord>, inactive: SiteRecord, after: seq<SiteRecord>)
    requires !IsFalsy(Some(key)) && !inactive.isActive && inactive.apiKey == Some(key)
    ensures Handle(Some(key), before + [inactive] + after) == Handle(Some(key), before + after)
    ensures (forall i :: 0 <= i < |before + after| ==> (before + after)[i].apiKey != Some(key)) ==>
      Handle(Some(key), before + [inactive] + after) == Unauthorized(InvalidKeyMessage)
  {
    InactiveSiteIsInvisible(key, before, inactive, after);
  }

  /** An active site holding the key is found (the first such site in table order). */
  lemma ActiveKeyIsForwarded(key: string, sites: seq<SiteRecord>, i: nat)
    requires !IsFalsy(Some(key)) && i < |sites| && ActiveWithKey(sites[i], key)
    requires forall k :: 0 <= k < i ==> !ActiveWithKey(sites[k], key)
    ensures Handle(Some(key), sites) == Forward(sites[i])
  {
    var r := Handle(Some(key), sites);
    assert r.Forward?;
    var j :| 0 <= j < |sites| && sites[j] == r.site && ActiveWithKey(sites[j], key) &&
             forall k :: 0 <= k < j ==> !ActiveWithKey(sites[k], key);
    assert j == i;
  }
}
