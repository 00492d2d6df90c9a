/** The domain examples of the site tests, checked against the normaliser and the hostname pattern. */
module DomainExamples {
  import opened Foundation
  import opened UpdateSiteRequest

  /** Any-case "http://"/"https://" then any-case "www." then a host: the lower-cased host. */
  lemma UrlWithoutPathNormalisesToHost(scheme: string, www: string, host: string)
    requires ToLower(scheme) == "http://" || ToLower(scheme) == "https://"
    requires ToLower(www) == "www."
    requires '/' !in host && |host| > 0 && !IsTrimChar(host[|host| - 1])
    ensures ExtractDomain(scheme + www + host) == ToLower(host)
  {
    var afterScheme := www + host;
    var url := scheme + afterScheme;
    assert url == scheme + www + host;
    assert !IsTrimChar(url[0]) by {
      assert url[0] == scheme[0];
      assert LowerChar(scheme[0]) == ToLower(scheme)[0] == 'h';
    }
    assert url[|url| - 1] == host[|host| - 1];
    TrimOfTrimmed(url);
    SchemeStripped(scheme, afterScheme);
    WwwStripped(www, host);
    NoSlashNoCut(host);
    ExtractDomainSteps(url, url, afterScheme, host, host);
  }

  /** A string whose first letter is not a 'w' keeps its front. */
  lemma NoWwwKept(s: string)
    requires |s| >= 4 && LowerChar(s[0]) != 'w'
    ensures StripWww(s) == s
  {
    assert ToLower(s[..4])[0] == LowerChar(s[0]);
  }

  /** Without "www.", a URL normalises to its lower-cased host as well. */
  lemma UrlWithoutWwwNormalisesToHost(scheme: string, host: string, path: string)
    requires ToLower(scheme) == "http://" || ToLower(scheme) == "https://"
    requires '/' !in host && '\n' !in path && |host| >= 4
    requires LowerChar(host[0]) != 'w'
    requires path == [] || !IsTrimChar(path[|path| - 1])
    ensures ExtractDomain(scheme + host + "/" + path) == ToLower(host)
  {
    var rest := host + "/" + path;
    var url := scheme + rest;
    assert url == scheme + host + "/" + path;
    assert !IsTrimChar(url[0]) by {
      assert url[0] == scheme[0];
      assert LowerChar(scheme[0]) == ToLower(scheme)[0] == 'h';
    }
    assert !IsTrimChar(url[|url| - 1]) by {
      assert url[|url| - 1] == rest[|rest| - 1];
    }
    TrimOfTrimmed(url);
    SchemeStripped(scheme, rest);
    assert rest[0] == host[0];
    NoWwwKept(rest);
    PathCut(host, path);
  }

  /** Neither "www." nor a path: scheme + host normalises to the lower-cased host. */
  lemma SchemeHostNormalisesToHost(scheme: string, host: string)
    requires ToLower(scheme) == "http://" || ToLower(scheme) == "https://"
    requires '/' !in host && |host| >= 4 && LowerChar(host[0]) != 'w' && !IsTrimChar(host[|host| - 1])
    ensures ExtractDomain(scheme + host) == ToLower(host)
  {
    var url := scheme + host;
    assert !IsTrimChar(url[0]) by {
      assert url[0] == scheme[0];
      assert LowerChar(scheme[0]) == ToLower(scheme)[0] == 'h';
    }
    assert url[|url| - 1] == host[|host| - 1];
    TrimOfTrimmed(url);
    SchemeStripped(scheme, host);
    NoWwwKept(host);
    NoSlashNoCut(host);
    ExtractDomainSteps(url, url, host, host, host);
  }

  lemma NoSlashNoCut(s: string)
    requires '/' !in s
    ensures CutPath(s) == s
  {
    forall j | 0 <= j < |s| ensures !PathStartsAt(s, j) {
    }
  }

  /** What the URL examples need to know about their literals. */
  lemma HostFacts(host: string)
    requires host == "example.com" || host == "theassignmenthelp.co.nz"
    ensures |host| >= 4 && LowerChar(host[0]) != 'w' && '/' !in host
    ensures !IsTrimChar(host[|host| - 1]) && !IsTrimChar(host[0]) && IsLower(host) && ToLower(host) == host
  {
    ToLowerOfLower(host);
  }

  lemma BareFacts(host: string)
    requires host == "example.com" || host == "invaliddomain"
    ensures |host| >= 4 && LowerChar(host[0]) != 'w' && LowerChar(host[0]) != 'h' && '/' !in host
    ensures !IsTrimChar(host[|host| - 1]) && !IsTrimChar(host[0]) && IsLower(host)
  {
  }

  lemma PrefixFacts(prefix: string)
    requires prefix == "https://" || prefix == "http://" || prefix == "www."
    ensures ToLower(prefix) == prefix
  {
    ToLowerOfLower(prefix);
  }

  /** "https://www.theassignmenthelp.co.nz/" normalises to "theassignmenthelp.co.nz". */
  lemma WwwHostWithSlash(https: string, www: string, longHost: string)
    requires https == "https://" && www == "www." && longHost == "theassignmenthelp.co.nz"
    ensures ExtractDomain(https + www + longHost + "/") == longHost
  {
    HostFacts(longHost);
    PrefixFacts(https);
    PrefixFacts(www);
    UrlNormalisesToHost(https, www, longHost, []);
    assert https + www + longHost + "/" == https + www + longHost + "/" + [];
  }

  /** "https://www.example.com" and "http://www.example.com" normalise to "example.com". */
  lemma WwwHost(scheme: string, www: string, host: string)
    requires scheme == "https://" || scheme == "http://"
    requires www == "www." && host == "example.com"
    ensures ExtractDomain(scheme + www + host) == host
  {
    HostFacts(host);
    PrefixFacts(scheme);
    PrefixFacts(www);
    UrlWithoutPathNormalisesToHost(scheme, www, host);
  }

  /** "https://example.com" normalises to "example.com". */
  lemma SchemeHost(https: string, host: string)
    requires https == "https://" && host == "example.com"
    ensures ExtractDomain(https + host) == host
  {
    HostFacts(host);
    PrefixFacts(https);
    SchemeHostNormalisesToHost(https, host);
  }

  /** "https://example.com/" and "https://example.com/some/path" normalise to "example.com". */
  lemma HostWithPath(https: string, host: string, path: string)
    requires https == "https://" && host == "example.com" && (path == "" || path == "some/path")
    ensures ExtractDomain(https + host + "/" + path) == host
  {
    HostFacts(host);
    PrefixFacts(https);
    assert '\n' !in path by {
      assert forall i :: 0 <= i < |path| ==> path[i] != '\n';
    }
    UrlWithoutWwwNormalisesToHost(https, host, path);
  }

  /** A string whose first letter is not an 'h' has no scheme to strip. */
  lemma NoSchemeKept(s: string)
    requires |s| > 0 && LowerChar(s[0]) != 'h'
    ensures StripProtocol(s) == s
  {
    if |s| >= 7 {
      assert ToLower(s[..7])[0] == LowerChar(s[0]);
    }
    if |s| >= 8 {
      assert ToLower(s[..8])[0] == LowerChar(s[0]);
    }
  }

  /** "example.com" (and "invaliddomain") is its own normal form. */
  lemma BareHost(host: string)
    requires host == "example.com" || host == "invaliddomain"
    ensures ExtractDomain(host) == host
  {
    BareFacts(host);
    NoSchemeKept(host);
    NoWwwKept(host);
    BareHostUnchanged(host);
  }

  /** Any-case "www." then a host, without a scheme: the lower-cased host. */
  lemma WwwWithoutScheme(www: string, host: string)
    requires ToLower(www) == "www."
    requires '/' !in host && |host| > 0 && !IsTrimChar(host[|host| - 1])
    ensures ExtractDomain(www + host) == ToLower(host)
  {
    var s := www + host;
    assert s[0] == www[0] && LowerChar(www[0]) == ToLower(www)[0] == 'w';
    assert s[|s| - 1] == host[|host| - 1];
    TrimOfTrimmed(s);
    NoSchemeKept(s);
    WwwStripped(www, host);
    NoSlashNoCut(host);
    ExtractDomainSteps(s, s, s, host, host);
  }

  /** "www.example.com" normalises to "example.com". */
  lemma WwwHostWithoutScheme(www: string, host: string)
    requires www == "www." && host == "example.com"
    ensures ExtractDomain(www + host) == host
  {
    HostFacts(host);
    PrefixFacts(www);
    WwwWithoutScheme(www, host);
  }

  /** Only one "www." goes: "www.www.a.com" gives "www.a.com", which gives "a.com", so normalising is not idempotent. */
  lemma WwwStrippedOnce(www: string, host: string)
    requires www == "www." && host == "a.com"
    ensures ExtractDomain(www + (www + host)) == www + host
    ensures ExtractDomain(www + host) == host
  {
    PrefixFacts(www);
    ToLowerOfLower(host);
    ToLowerOfLower(www + host);
    WwwWithoutScheme(www, www + host);
    WwwWithoutScheme(www, host);
  }

  lemma LabelFacts(l: string)
    requires l in {"example", "blog", "co", "api", "v2", "my-site", "site123"}
    ensures IsLabel(l)
  {
  }

  lemma TldFacts(t: string)
    requires t in {"com", "uk", "org", "museum"}
    ensures IsTld(t)
  {
  }

  /** The valid domains of the site tests with one label before the TLD. */
  lemma ValidTwoPartDomains(example: string, com: string, mySite: string, site123: string, museum: string)
    requires example == "example" && com == "com" && mySite == "my-site" && site123 == "site123" && museum == "museum"
    ensures DomainSyntax(example + "." + com)
    ensures DomainSyntax(mySite + "." + com)
    ensures DomainSyntax(site123 + "." + com)
    ensures DomainSyntax(example + "." + museum)
  {
    LabelFacts(example);
    LabelFacts(mySite);
    LabelFacts(site123);
    TldFacts(com);
    TldFacts(museum);
    LabelDotDomain(example, com);
    LabelDotDomain(mySite, com);
    LabelDotDomain(site123, com);
    LabelDotDomain(example, museum);
  }

  /** "blog.example.com" matches. */
  lemma ValidSubdomain(blog: string, example: string, com: string)
    requires blog == "blog" && example == "example" && com == "com"
    ensures DomainSyntax(blog + "." + (example + "." + com))
  {
    LabelFacts(example);
    LabelFacts(blog);
    TldFacts(com);
    LabelDotDomain(example, com);
    LabelDotDomain(blog, example + "." + com);
  }

  /** "example.co.uk" matches. */
  lemma ValidSecondLevelDomain(example: string, co: string, uk: string)
    requires example == "example" && co == "co" && uk == "uk"
    ensures DomainSyntax(example + "." + (co + "." + uk))
  {
    LabelFacts(example);
    LabelFacts(co);
    TldFacts(uk);
    LabelDotDomain(co, uk);
    LabelDotDomain(example, co + "." + uk);
  }

  /** "api.v2.example.org" matches. */
  lemma ValidDeepDomain(api: string, v2: string, example: string, org: string)
    requires api == "api" && v2 == "v2" && example == "example" && org == "org"
    ensures DomainSyntax(api + "." + (v2 + "." + (example + "." + org)))
  {
    LabelFacts(api);
    LabelFacts(v2);
    LabelFacts(example);
    TldFacts(org);
    LabelDotDomain(example, org);
    LabelDotDomain(v2, example + "." + org);
    LabelDotDomain(api, v2 + "." + (example + "." + org));
  }

  /** The nine invalid domains of the site tests, and invaliddomain, do not match the pattern. */
  lemma InvalidDomains(s: string)
    requires s in {"dissertationproposal", "invaliddomain", ".com", "example.com.", ".example.com",
                   "example..com", "exam ple.com", "exam_ple.com"} + {"-example.com", "example-.com"}
    ensures !MatchesDomainPattern(s)
  {
    if s in {"-example.com", "example-.com"} {
      HyphenatedInvalidDomains(s);
    } else {
      UnhyphenatedInvalidDomains(s);
    }
  }

  /** The invalid domains that fail for a missing dot, an empty label or a stray character. */
  lemma UnhyphenatedInvalidDomains(s: string)
    requires s in {"dissertationproposal", "invaliddomain", ".com", "example.com.", ".example.com",
                   "example..com", "exam ple.com", "exam_ple.com"}
    ensures !MatchesDomainPattern(s)
  {
    assert s[|s| - 1] != '\n';
    if s == "dissertationproposal" || s == "invaliddomain" {
      assert forall i :: 0 <= i < |s| ==> s[i] != '.';
      NoDotNoDomain(s);
    } else if s == "example..com" {
      assert s[7] == '.' && s[8] == '.';
      EmptyLabelNoDomain(s);
    } else if s == "exam ple.com" || s == "exam_ple.com" {
      StrayCharNoDomain(s, 4);
    } else {
      assert s[0] == '.' || s[|s| - 1] == '.';
      EmptyLabelNoDomain(s);
    }
  }

  /** The two hyphenated invalid domains of the site tests do not match the pattern. */
  lemma HyphenatedInvalidDomains(s: string)
    requires s in {"-example.com", "example-.com"}
    ensures !MatchesDomainPattern(s)
  {
    assert s[8] == '.' && s[|s| - 1] != '\n';
    assert forall i :: 0 <= i < 8 ==> s[i] != '.';
    HyphenBeforeFirstDot(s, 8);
  }

  /** A string whose first label, ending at the dot at `j`, has a hyphen at an edge is refused. */
  lemma HyphenBeforeFirstDot(s: string, j: nat)
    requires 0 < j < |s| && s[j] == '.' && (s[0] == '-' || s[j - 1] == '-')
    requires forall i :: 0 <= i < j ==> s[i] != '.'
    requires s[|s| - 1] != '\n'
    ensures !MatchesDomainPattern(s)
  {
    HyphenEdgeNoDomain(s[..j], s[j + 1..]);
    assert s == s[..j] + "." + s[j + 1..];
  }

  /** A label with a hyphen at either edge is refused. */
  lemma HyphenatedEdges(left: string, right: string, com: string)
    requires left == "-example" && right == "example-" && com == "com"
    ensures !MatchesDomainPattern(left + "." + com)
    ensures !MatchesDomainPattern(right + "." + com)
  {
    assert '.' !in left by {
      assert forall i :: 0 <= i < |left| ==> left[i] != '.';
    }
    assert '.' !in right by {
      assert forall i :: 0 <= i < |right| ==> right[i] != '.';
    }
    HyphenEdgeNoDomain(left, com);
    HyphenEdgeNoDomain(right, com);
    assert (left + "." + com)[|left + "." + com| - 1] == 'm';
    assert (right + "." + com)[|right + "." + com| - 1] == 'm';
  }

  /** A site update that only deactivates the site passes, and nothing else is touched. */
  lemma DeactivateOnly()
    ensures ValidateUpdate(SiteUpdateInput(None, None, Some(Bool(false)))) ==
            Accepted(SiteUpdateInput(None, None, Some(Bool(false))))
  {
  }

  /** An update that only touches the domain, with a prepared domain failing its rule, is rejected on that field alone. */
  lemma OnlyDomainRejected(input: SiteUpdateInput)
    requires input.siteName.None? && input.isActive.None?
    requires Prepare(input) == Some(input) && !DomainOk(input.domain)
    ensures ValidateUpdate(input) == Rejected([DomainField])
  {
    DomainOnlyErrors(input);
    var r := ValidateUpdate(input);
    assert !r.Accepted? && !r.ServerError?;
  }

  lemma DomainOnlyErrors(input: SiteUpdateInput)
    requires input.siteName.None? && input.isActive.None? && !DomainOk(input.domain)
    ensures SiteFieldErrors(input) == [DomainField]
  {
  }

  /** An update whose domain is its own normal form but fails the pattern is rejected on the domain field only. */
  lemma RejectedDomainUpdate(d: string)
    requires ExtractDomain(d) == d && !MatchesDomainPattern(d)
    ensures ValidateUpdate(SiteUpdateInput(None, Some(Str(d)), None)) == Rejected([DomainField])
  {
    var input := SiteUpdateInput(None, Some(Str(d)), None);
    assert Prepare(input) == Some(input);
    OnlyDomainRejected(input);
  }

  /** The site update test: "invaliddomain" is refused. */
  lemma InvalidDomainUpdateRejected(d: string)
    requires d == "invaliddomain"
    ensures ValidateUpdate(SiteUpdateInput(None, Some(Str(d)), None)) == Rejected([DomainField])
  {
    BareHost(d);
    InvalidDomains(d);
    RejectedDomainUpdate(d);
  }
}
