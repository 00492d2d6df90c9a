/**
 * UpdateSiteRequest: the domain normaliser run in prepareForValidation, the
 * hostname pattern, and the `sometimes` rules of a partial site update.
 */
module UpdateSiteRequest {
  import opened Foundation

  // ------------------------------------------------------------ extractDomain

  /** s begins with `prefix` ignoring ASCII case (`prefix` is lower-case). */
  predicate StartsWithIgnoringCase(s: string, prefix: string)
  {
    |prefix| <= |s| && ToLower(s[..|prefix|]) == prefix
  }

  /** `preg_replace('#^https?://#i', '', $s)`. */
  function StripProtocol(s: string): (r: string)
    ensures StartsWithIgnoringCase(s, "https://") ==> r == s[8..]
    ensures !StartsWithIgnoringCase(s, "https://") && StartsWithIgnoringCase(s, "http://") ==> r == s[7..]
    ensures !StartsWithIgnoringCase(s, "https://") && !StartsWithIgnoringCase(s, "http://") ==> r == s
  {
    if StartsWithIgnoringCase(s, "https://") then s[8..]
    else if StartsWithIgnoringCase(s, "http://") then s[7..]
    else s
  }

  /** `preg_replace('#^www\.#i', '', $s)`: one leading "www.", any case. */
  function StripWww(s: string): (r: string)
    ensures StartsWithIgnoringCase(s, "www.") ==> r == s[4..]
    ensures !StartsWithIgnoringCase(s, "www.") ==> r == s
  {
    if StartsWithIgnoringCase(s, "www.") then s[4..] else s
  }

  /**
   * `/.*$` can match from the '/' at i: `.` does not match a line break and
   * `$` also matches just before a final "\n", so no "\n" may follow i
   * except one ending the string.
   */
  predicate PathStartsAt(s: string, i: int)
  {
    0 <= i < |s| && s[i] == '/' &&
    ('\n' !in s[i + 1..] || (s[|s| - 1] == '\n' && '\n' !in s[i + 1..|s| - 1]))
  }

  /** The leftmost position where `/.*$` matches, or |s| when it matches nowhere. */
  function FindPathStart(s: string, from: nat): (i: nat)
    requires from <= |s|
    ensures from <= i <= |s|
    ensures i < |s| ==> PathStartsAt(s, i)
    ensures forall j :: from <= j < i ==> !PathStartsAt(s, j)
    decreases |s| - from
  {
    if from == |s| then |s|
    else if PathStartsAt(s, from) then from
    else FindPathStart(s, from + 1)
  }

  /** `preg_replace('#/.*$#', '', $s)`: drop the matched path, keeping a final "\n" `$` stopped at. */
  function CutPath(s: string): (r: string)
    ensures FindPathStart(s, 0) == |s| ==> r == s
    ensures FindPathStart(s, 0) < |s| ==>
      r == s[..FindPathStart(s, 0)] || r == s[..FindPathStart(s, 0)] + "\n"
    ensures FindPathStart(s, 0) < |s| ==>
      (|r| > FindPathStart(s, 0) <==> '\n' in s[FindPathStart(s, 0) + 1..])
  {
    var i := FindPathStart(s, 0);
    if i == |s| then s
    else if '\n' !in s[i + 1..] then s[..i]
    else s[..i] + "\n"
  }

  /** UpdateSiteRequest::extractDomain. */
  function ExtractDomain(value: string): (r: string)
    ensures IsLower(r)
  {
    ToLower(CutPath(StripWww(StripProtocol(Trim(value)))))
  }

  /** extractDomain as its four rewrite steps. */
  lemma ExtractDomainSteps(value: string, trimmed: string, noScheme: string, noWww: string, cut: string)
    requires Trim(value) == trimmed && StripProtocol(trimmed) == noScheme
    requires StripWww(noScheme) == noWww && CutPath(noWww) == cut
    ensures ExtractDomain(value) == ToLower(cut)
  {
  }

  /** The normalised domain is lower-case and contains no '/' when the input has no line break. */
  lemma ExtractDomainHasNoSlash(value: string)
    requires '\n' !in value
    ensures '/' !in ExtractDomain(value)
  {
    var t := Trim(value);
    TrimIsInfix(value);
    var s := StripWww(StripProtocol(t));
    assert '\n' !in s by {
      assert forall c :: c in s ==> c in t;
    }
    var i := FindPathStart(s, 0);
    var cut := CutPath(s);
    if i == |s| {
      forall j | 0 <= j < |s| ensures s[j] != '/' {
        assert !PathStartsAt(s, j);
        assert '\n' !in s[j + 1..];
      }
    } else {
      assert '\n' !in s[i + 1..];
      assert cut == s[..i];
      forall j | 0 <= j < i ensures s[j] != '/' {
        assert !PathStartsAt(s, j);
        assert '\n' !in s[j + 1..];
      }
    }
    assert '/' !in cut;
    forall j | 0 <= j < |cut| ensures ExtractDomain(value)[j] != '/' {
      LowerCharKeepsPunctuation(cut[j]);
    }
  }

  /** Every character trim() keeps was in its input. */
  lemma TrimIsInfix(s: string)
    ensures forall c :: c in Trim(s) ==> c in s
  {
    var a := TrimStart(s);
    assert forall c :: c in a ==> c in s;
    assert forall c :: c in TrimEnd(a) ==> c in a;
  }

  /** A string with no trim character at either end is unchanged by trim(). */
  lemma TrimOfTrimmed(s: string)
    requires s == [] || (!IsTrimChar(s[0]) && !IsTrimChar(s[|s| - 1]))
    ensures Trim(s) == s
  {
  }

  /** An any-case "http://" or "https://" in front is removed. */
  lemma SchemeStripped(scheme: string, after: string)
    requires ToLower(scheme) == "http://" || ToLower(scheme) == "https://"
    ensures StripProtocol(scheme + after) == after
  {
    var url := scheme + after;
    assert url[..|scheme|] == scheme;
    if ToLower(scheme) == "http://" {
      if |url| >= 8 {
        assert url[..8][4] == scheme[4];
        assert ToLower(url[..8])[4] == LowerChar(scheme[4]) == ToLower(scheme)[4];
      }
      assert url[7..] == after;
    } else {
      assert url[8..] == after;
    }
  }

  /** An any-case "www." in front is removed. */
  lemma WwwStripped(www: string, rest: string)
    requires ToLower(www) == "www."
    ensures StripWww(www + rest) == rest
  {
    assert (www + rest)[..4] == www;
    assert (www + rest)[4..] == rest;
  }

  /** host + "/" + path loses the path when the host has no '/' and the path no line break. */
  lemma PathCut(host: string, path: string)
    requires '/' !in host && '\n' !in path
    ensures CutPath(host + "/" + path) == host
  {
    var rest := host + "/" + path;
    forall j | 0 <= j < |host| ensures !PathStartsAt(rest, j) {
      assert rest[j] == host[j];
    }
    assert rest[|host| + 1..] == path;
    assert PathStartsAt(rest, |host|);
    assert FindPathStart(rest, 0) == |host|;
    assert rest[..|host|] == host;
  }

  /**
   * A URL with any-case "http://" or "https://", any-case "www.", a host
   * without '/', and a path without line breaks normalises to the
   * lower-cased host.
   */
  lemma UrlNormalisesToHost(scheme: string, www: string, host: string, path: string)
    requires ToLower(scheme) == "http://" || ToLower(scheme) == "https://"
    requires ToLower(www) == "www."
    requires '/' !in host && '\n' !in path
    requires path == [] || !IsTrimChar(path[|path| - 1])
    ensures ExtractDomain(scheme + www + host + "/" + path) == ToLower(host)
  {
    var rest := host + "/" + path;
    var afterScheme := www + rest;
    var url := scheme + afterScheme;
    assert url == scheme + www + host + "/" + path;
    assert !IsTrimChar(url[0]) by {
      assert url[0] == scheme[0];
      assert LowerChar(scheme[0]) == ToLower(scheme)[0] == 'h';
    }
    assert !IsTrimChar(url[|url| - 1]) by {
      assert url[|url| - 1] == rest[|rest| - 1];
    }
    TrimOfTrimmed(url);
    SchemeStripped(scheme, afterScheme);
    WwwStripped(www, rest);
    PathCut(host, path);
  }

  /** A lower-case bare host with no scheme, "www." or '/' is its own normal form. */
  lemma BareHostUnchanged(host: string)
    requires IsLower(host) && '/' !in host
    requires host == [] || (!IsTrimChar(host[0]) && !IsTrimChar(host[|host| - 1]))
    requires !StartsWithIgnoringCase(host, "https://") && !StartsWithIgnoringCase(host, "http://")
    requires !StartsWithIgnoringCase(host, "www.")
    ensures ExtractDomain(host) == host
  {
    TrimOfTrimmed(host);
    forall j | 0 <= j < |host| ensures !PathStartsAt(host, j) {
    }
    ToLowerOfLower(host);
  }

  // ------------------------------------------------------------ domain pattern

  predicate IsAlnum(c: char)
  {
    'a' <= c <= 'z' || 'A' <= c <= 'Z' || '0' <= c <= '9'
  }

  predicate IsLetter(c: char)
  {
    'a' <= c <= 'z' || 'A' <= c <= 'Z'
  }

  /** `[a-z0-9](?:[a-z0-9-]{0,61}[a-z0-9])?` under the `i` flag. */
  predicate IsLabel(l: string)
  {
    1 <= |l| <= 63 && IsAlnum(l[0]) && IsAlnum(l[|l| - 1]) &&
    forall i :: 0 <= i < |l| ==> IsAlnum(l[i]) || l[i] == '-'
  }

  /** `[a-z]{2,}` under the `i` flag. */
  predicate IsTld(t: string)
  {
    2 <= |t| && forall i :: 0 <= i < |t| ==> IsLetter(t[i])
  }

  /**
   * `(?:label\.)+tld`, the whole string. A label holds no '.', so each
   * label ends at the next dot.
   */
  predicate DomainSyntax(s: string)
    decreases |s|
  {
    var k := IndexOf(s, '.');
    k < |s| && IsLabel(s[..k]) && (IsTld(s[k + 1..]) || DomainSyntax(s[k + 1..]))
  }

  /** The regex with its `^…$` anchors: `$` also matches before one final "\n". */
  predicate MatchesDomainPattern(s: string)
  {
    DomainSyntax(s) || (|s| > 0 && s[|s| - 1] == '\n' && DomainSyntax(s[..|s| - 1]))
  }

  /** `explode('.', $s)`. */
  function SplitOnDots(s: string): (parts: seq<string>)
    ensures |parts| >= 1
    ensures '.' !in s ==> parts == [s]
    decreases |s|
  {
    var k := IndexOf(s, '.');
    if k == |s| then [s] else [s[..k]] + SplitOnDots(s[k + 1..])
  }

  /** At least two dot-separated parts: labels, then a top-level domain. */
  predicate LabelsThenTld(parts: seq<string>)
  {
    |parts| >= 2 && IsTld(parts[|parts| - 1]) &&
    forall i :: 0 <= i < |parts| - 1 ==> IsLabel(parts[i])
  }

  lemma TldHasNoDot(t: string)
    requires IsTld(t)
    ensures '.' !in t
  {
    forall i | 0 <= i < |t| ensures t[i] != '.' {
      assert IsLetter(t[i]);
    }
  }

  lemma SplitIsSingleton(s: string)
    ensures |SplitOnDots(s)| == 1 <==> '.' !in s
  {
    var k := IndexOf(s, '.');
    if k < |s| {
      assert |SplitOnDots(s[k + 1..])| >= 1;
    }
  }

  lemma LabelsThenTldCons(first: string, tail: seq<string>)
    requires |tail| >= 1
    ensures LabelsThenTld([first] + tail) <==>
      IsLabel(first) && ((|tail| == 1 && IsTld(tail[0])) || LabelsThenTld(tail))
  {
    var parts := [first] + tail;
    assert parts[0] == first;
    assert forall i :: 1 <= i < |parts| ==> parts[i] == tail[i - 1];
    if LabelsThenTld(parts) && |tail| > 1 {
      forall i | 0 <= i < |tail| - 1 ensures IsLabel(tail[i]) {
        assert parts[i + 1] == tail[i];
      }
    }
  }

  /** The pattern accepts exactly one or more labels followed by a TLD. */
  lemma {:induction false} DomainSyntaxIsLabelsThenTld(s: string)
    ensures DomainSyntax(s) <==> LabelsThenTld(SplitOnDots(s))
    decreases |s|
  {
    var k := IndexOf(s, '.');
    if k < |s| {
      var head, rest := s[..k], s[k + 1..];
      var tail := SplitOnDots(rest);
      DomainSyntaxIsLabelsThenTld(rest);
      SplitAtFirstDot(s, k);
      LabelsThenTldCons(head, tail);
      TldIsOnePart(rest);
      calc {
        DomainSyntax(s);
        IsLabel(head) && (IsTld(rest) || DomainSyntax(rest));
        IsLabel(head) && ((|tail| == 1 && IsTld(tail[0])) || LabelsThenTld(tail));
        LabelsThenTld([head] + tail);
      }
    }
  }

  lemma SplitAtFirstDot(s: string, k: nat)
    requires k == IndexOf(s, '.') && k < |s|
    ensures SplitOnDots(s) == [s[..k]] + SplitOnDots(s[k + 1..])
  {
  }

  /** A TLD is a whole string of one part. */
  lemma TldIsOnePart(t: string)
    ensures IsTld(t) <==> |SplitOnDots(t)| == 1 && IsTld(SplitOnDots(t)[0])
  {
    SplitIsSingleton(t);
    if IsTld(t) {
      TldHasNoDot(t);
    }
  }

  /** Gluing a label in front of a valid domain, or of a TLD, gives a valid domain. */
  lemma LabelDotDomain(head: string, rest: string)
    requires IsLabel(head) && (IsTld(rest) || DomainSyntax(rest))
    ensures DomainSyntax(head + "." + rest)
  {
    var s := head + "." + rest;
    forall i | 0 <= i < |head| ensures s[i] != '.' {
      assert s[i] == head[i];
    }
    assert s[|head|] == '.';
    assert IndexOf(s, '.') == |head|;
    assert s[..|head|] == head;
    assert s[|head| + 1..] == rest;
  }

  /** A string without dots is refused (e.g. "invaliddomain", "dissertationproposal"). */
  lemma NoDotNoDomain(s: string)
    requires '.' !in s
    ensures !DomainSyntax(s)
  {
  }

  /** An empty head is refused: a leading dot, a trailing dot, two dots in a row. */
  lemma EmptyLabelNoDomain(s: string)
    requires |s| > 0 && (s[0] == '.' || s[|s| - 1] == '.' || exists i :: 0 <= i < |s| - 1 && s[i] == '.' && s[i + 1] == '.')
    ensures !DomainSyntax(s)
  {
    if s[0] == '.' {
      LeadingDotNoDomain(s);
    } else if s[|s| - 1] == '.' {
      TrailingDotNoDomain(s);
    } else {
      var i :| 0 <= i < |s| - 1 && s[i] == '.' && s[i + 1] == '.';
      DoubleDotNoDomain(s, i);
    }
  }

  lemma LeadingDotNoDomain(s: string)
    requires |s| > 0 && s[0] == '.'
    ensures !DomainSyntax(s)
  {
    assert IndexOf(s, '.') == 0;
  }

  lemma {:induction false} TrailingDotNoDomain(s: string)
    requires |s| > 0 && s[|s| - 1] == '.'
    ensures !DomainSyntax(s)
    decreases |s|
  {
    var k := IndexOf(s, '.');
    var rest := s[k + 1..];
    if rest != [] {
      assert rest[|rest| - 1] == '.';
      DotIsNoTld(rest, |rest| - 1);
      TrailingDotNoDomain(rest);
    }
  }

  lemma {:induction false} DoubleDotNoDomain(s: string, i: nat)
    requires i + 1 < |s| && s[i] == '.' && s[i + 1] == '.'
    ensures !DomainSyntax(s)
    decreases |s|
  {
    var k := IndexOf(s, '.');
    assert k <= i;
    var rest := s[k + 1..];
    if i == k {
      assert rest[0] == '.';
      LeadingDotNoDomain(rest);
      DotIsNoTld(rest, 0);
    } else {
      assert rest[i - k - 1] == '.' && rest[i - k] == '.';
      DotIsNoTld(rest, i - k - 1);
      DoubleDotNoDomain(rest, i - k - 1);
    }
  }

  lemma DotIsNoTld(t: string, d: nat)
    requires d < |t| && t[d] == '.'
    ensures !IsTld(t)
  {
    assert !IsLetter(t[d]);
  }

  /** A character outside letters, digits, '-' and '.' is refused (e.g. a space or '_'). */
  lemma {:induction false} StrayCharNoDomain(s: string, j: nat)
    requires j < |s| && !IsAlnum(s[j]) && s[j] != '-' && s[j] != '.'
    ensures !DomainSyntax(s)
    decreases |s|
  {
    var k := IndexOf(s, '.');
    assert forall i :: 0 <= i < k ==> s[..k][i] == s[i];
    if k < |s| && IsLabel(s[..k]) && j > k {
      var rest := s[k + 1..];
      assert rest[j - k - 1] == s[j];
      assert !IsTld(rest);
      StrayCharNoDomain(rest, j - k - 1);
    }
  }

  /** A head may not begin or end with '-' (e.g. "-example.com", "example-.com"). */
  lemma HyphenEdgeNoDomain(head: string, rest: string)
    requires |head| > 0 && (head[0] == '-' || head[|head| - 1] == '-') && '.' !in head
    ensures !DomainSyntax(head + "." + rest)
  {
    var s := head + "." + rest;
    forall i | 0 <= i < |head| ensures s[i] != '.' {
      assert s[i] == head[i];
    }
    assert s[|head|] == '.';
    assert IndexOf(s, '.') == |head|;
    assert s[..|head|] == head;
  }

  // ------------------------------------------------------------ the rules

  datatype SiteField = SiteNameField | DomainField | IsActiveField

  /** The fields of a PUT /sites/{site} request; None when absent. */
  datatype SiteUpdateInput = SiteUpdateInput(siteName: Option<Value>, domain: Option<Value>, isActive: Option<Value>)

  datatype SiteUpdateOutcome =
    | ServerError
    | Rejected(fields: seq<SiteField>)
    | Accepted(validated: SiteUpdateInput)

  /** PHP's decimal string of an int. */
  function DecimalString(n: int): (s: string)
    ensures |s| > 0
    ensures forall i :: 0 <= i < |s| ==> '0' <= s[i] <= '9' || s[i] == '-'
    decreases if n < 0 then 1 - n else n
  {
    if n < 0 then "-" + DecimalString(-n)
    else if n < 10 then [(48 + n) as char]
    else DecimalString(n / 10) + [(48 + n % 10) as char]
  }

  /**
   * The string a scalar becomes when passed to a `string` parameter
   * (no strict_types); null and arrays are refused with a TypeError.
   */
  function AsStringArgument(v: Value): (r: Option<string>)
    ensures r.None? <==> v.Null? || v.Arr?
    ensures v.Str? ==> r == Some(v.s)
  {
    match v
    case Str(s) => Some(s)
    case Num(n) => Some(DecimalString(n))
    case Bool(b) => Some(if b then "1" else "")
    case _ => None
  }

  /**
   * prepareForValidation: a present domain is replaced by its normal form;
   * a null or array domain throws; nothing else changes.
   */
  function Prepare(input: SiteUpdateInput): (r: Option<SiteUpdateInput>)
    ensures input.domain.None? ==> r == Some(input)
    ensures input.domain.Some? ==>
      (r.None? <==> input.domain.value.Null? || input.domain.value.Arr?)
    ensures input.domain.Some? && input.domain.value.Str? ==>
      r == Some(input.(domain := Some(Str(ExtractDomain(input.domain.value.s)))))
    ensures r.Some? ==> r.value.siteName == input.siteName && r.value.isActive == input.isActive
  {
    if input.domain.None? then Some(input)
    else
      var arg := AsStringArgument(input.domain.value);
      if arg.None? then None
      else Some(input.(domain := Some(Str(ExtractDomain(arg.value)))))
  }

  /** site_name: sometimes, required, string, max:255. */
  predicate SiteNameOk(v: Option<Value>)
  {
    v.None? || (IsPresentValue(v.value) && v.value.Str? && |v.value.s| <= 255)
  }

  /** domain: sometimes, required, string, max:255, the hostname pattern. */
  predicate DomainOk(v: Option<Value>)
  {
    v.None? || (IsPresentValue(v.value) && v.value.Str? && |v.value.s| <= 255 && MatchesDomainPattern(v.value.s))
  }

  /** is_active: sometimes, required, boolean (true, false, 0, 1, "0", "1"). */
  predicate IsActiveOk(v: Option<Value>)
  {
    v.None? ||
    match v.value
    case Bool(_) => true
    case Num(n) => n == 0 || n == 1
    case Str(s) => s == "0" || s == "1"
    case _ => false
  }

  function SiteFieldErrors(input: SiteUpdateInput): (errs: seq<SiteField>)
    ensures SiteNameField in errs <==> !SiteNameOk(input.siteName)
    ensures DomainField in errs <==> !DomainOk(input.domain)
    ensures IsActiveField in errs <==> !IsActiveOk(input.isActive)
  {
    (if SiteNameOk(input.siteName) then [] else [SiteNameField]) +
    (if DomainOk(input.domain) then [] else [DomainField]) +
    (if IsActiveOk(input.isActive) then [] else [IsActiveField])
  }

  /**
   * The form request as a whole: prepare, then validate. An absent field is
   * never validated, and an accepted domain is the lower-case normal form
   * of the submitted one and matches the hostname pattern.
   */
  function ValidateUpdate(input: SiteUpdateInput): (r: SiteUpdateOutcome)
    ensures r == ServerError <==> Prepare(input).None?
    ensures Prepare(input).Some? ==>
      var p := Prepare(input).value;
      (r.Accepted? <==> SiteNameOk(p.siteName) && DomainOk(p.domain) && IsActiveOk(p.isActive)) &&
      (r.Accepted? ==> r.validated == p) &&
      (r.Rejected? ==> r.fields == SiteFieldErrors(p))
    ensures r.Rejected? ==> |r.fields| > 0
    ensures input.siteName.None? && r.Rejected? ==> SiteNameField !in r.fields
    ensures input.domain.None? && r.Rejected? ==> DomainField !in r.fields
    ensures input.isActive.None? && r.Rejected? ==> IsActiveField !in r.fields
    ensures input == SiteUpdateInput(None, None, None) ==> r == Accepted(input)
    ensures r.Accepted? ==>
      r.validated.siteName == input.siteName && r.validated.isActive == input.isActive &&
      (input.domain.None? <==> r.validated.domain.None?)
    ensures r.Accepted? && input.domain.Some? && input.domain.value.Str? ==>
      var d := ExtractDomain(input.domain.value.s);
      r.validated.domain == Some(Str(d)) && MatchesDomainPattern(d) && IsLower(d) && |d| <= 255
  {
    var prepared := Prepare(input);
    if prepared.None? then ServerError
    else
      var errs := SiteFieldErrors(prepared.value);
      if |errs| > 0 then Rejected(errs)
      else
        assert DomainOk(prepared.value.domain) by {
          assert DomainField !in errs;
        }
        Accepted(prepared.value)
  }
}
