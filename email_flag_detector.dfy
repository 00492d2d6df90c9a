/**
 * The email classifier: a pure rule table over the lower-cased address.
 * Categories are tried in a fixed order (test, fake, spam, then the
 * disposable-domain list, which also yields fake); the first that matches
 * decides.
 *
 * PHP's filter_var(FILTER_VALIDATE_EMAIL) is not modelled; it is the
 * parameter `valid`, of which the model assumes only that an address it
 * accepts contains '@' (see EmailValidator).
 */
module EmailFlagDetector {
  import opened Foundation

  /** The reasons the detector can return; `duplicate` is not among them. */
  datatype FlagReason = Test | Fake | Spam
  {
    /** The string stored in the lead's flag_reason column. */
    function Name(): (s: string)
      ensures s in {"test", "fake", "spam"}
    {
      match this
      case Test => "test"
      case Fake => "fake"
      case Spam => "spam"
    }
  }

  /** The only property the model relies on of filter_var: valid addresses hold an '@'. */
  ghost predicate EmailValidator(valid: string -> bool)
  {
    forall s :: valid(s) ==> '@' in s
  }

  const TestPatterns: seq<string> :=
    ["test", "demo", "sample", "example.com", "test.com", "test.test",
     "localhost", "qa", "staging", "develop"]

  const FakePatterns: seq<string> :=
    ["fake", "faker", "notreal", "nope", "invalid"]

  const SpamPatterns: seq<string> :=
    ["spam", "no-reply", "noreply", "do-not-reply", "donotreply", "auto-reply", "autoreply"]

  const TemporaryDomains: seq<string> :=
    ["tempmail.com", "temp-mail.org", "guerrillamail.com", "mailinator.com", "10minutemail.com",
     "throwaway.email", "trashmail.com", "0box.eu", "yopmail.com", "temp.email"]

  /**
   * One rule of a table: a pattern holding a '.' names a whole domain,
   * any other pattern is searched for inside the local part.
   */
  predicate PatternMatches(pattern: string, localPart: string, domain: string)
  {
    if '.' in pattern then domain == pattern else Contains(localPart, pattern)
  }

  /** The rule-table reading of a category: some pattern of the table matches. */
  ghost predicate CategoryMatches(localPart: string, domain: string, patterns: seq<string>)
  {
    exists j :: 0 <= j < |patterns| && PatternMatches(patterns[j], localPart, domain)
  }

  /** matchesPatterns: the search over the table, stopping at the first match. */
  function MatchesPatterns(localPart: string, domain: string, patterns: seq<string>): (b: bool)
    ensures b <==> CategoryMatches(localPart, domain, patterns)
    decreases |patterns|
  {
    if |patterns| == 0 then
      false
    else if PatternMatches(patterns[0], localPart, domain) then
      true
    else
      var b := MatchesPatterns(localPart, domain, patterns[1..]);
      assert forall j :: 0 < j < |patterns| ==> patterns[j] == patterns[1..][j - 1];
      b
  }

  /** isTemporaryDomain: in_array against the disposable-provider list. */
  function IsTemporaryDomain(domain: string): (b: bool)
    ensures b <==> exists j :: 0 <= j < |TemporaryDomains| && TemporaryDomains[j] == domain
  {
    domain in TemporaryDomains
  }

  /** `$localPart` of `explode('@', $email)`: the text before the first '@'. */
  function LocalPart(email: string): (l: string)
    requires '@' in email
    ensures '@' !in l && |l| < |email| && email[..|l| + 1] == l + "@"
  {
    email[..IndexOf(email, '@')]
  }

  /** `$domain` of `explode('@', $email)`: the text after the first '@', up to the next one. */
  function DomainPart(email: string): (d: string)
    requires '@' in email
    ensures '@' !in d
    ensures |LocalPart(email)| + 1 + |d| <= |email|
    ensures email[|LocalPart(email)| + 1..|LocalPart(email)| + 1 + |d|] == d
    ensures var k := |LocalPart(email)| + 1 + |d|; k == |email| || email[k] == '@'
  {
    var rest := email[IndexOf(email, '@') + 1..];
    assert rest[..IndexOf(rest, '@')] == email[IndexOf(email, '@') + 1..][..IndexOf(rest, '@')];
    rest[..IndexOf(rest, '@')]
  }

  /**
   * The rule table read declaratively: the first category, in the order
   * test, fake, spam, disposable domain, with some matching rule.
   */
  ghost function RuleTable(localPart: string, domain: string): Option<FlagReason>
  {
    if CategoryMatches(localPart, domain, TestPatterns) then Some(Test)
    else if CategoryMatches(localPart, domain, FakePatterns) then Some(Fake)
    else if CategoryMatches(localPart, domain, SpamPatterns) then Some(Spam)
    else if domain in TemporaryDomains then Some(Fake)
    else None
  }

  /** The category of an address that is already lower-cased and validated. */
  function Classify(lower: string): (r: Option<FlagReason>)
    requires '@' in lower
    ensures r == RuleTable(LocalPart(lower), DomainPart(lower))
  {
    var localPart, domain := LocalPart(lower), DomainPart(lower);
    if MatchesPatterns(localPart, domain, TestPatterns) then Some(Test)
    else if MatchesPatterns(localPart, domain, FakePatterns) then Some(Fake)
    else if MatchesPatterns(localPart, domain, SpamPatterns) then Some(Spam)
    else if IsTemporaryDomain(domain) then Some(Fake)
    else None
  }

  /** Whether detect() gets past its guard: a truthy string that filter_var accepts. */
  predicate Checkable(valid: string -> bool, email: Option<string>)
  {
    !IsFalsy(email) && valid(email.value)
  }

  /**
   * detect(): null for a missing, falsy or invalid address; otherwise the
   * rule table applied to the parts of the lower-cased address.
   */
  function Detect(valid: string -> bool, email: Option<string>): (r: Option<FlagReason>)
    requires EmailValidator(valid)
    ensures !Checkable(valid, email) ==> r == None
    ensures Checkable(valid, email) ==>
      '@' in ToLower(email.value) &&
      r == RuleTable(LocalPart(ToLower(email.value)), DomainPart(ToLower(email.value)))
  {
    if !Checkable(valid, email) then
      None
    else
      LowerPreservesAt(email.value);
      Classify(ToLower(email.value))
  }

  lemma LowerPreservesAt(s: string)
    requires '@' in s
    ensures '@' in ToLower(s)
  {
    var i := IndexOf(s, '@');
    assert ToLower(s)[i] == '@';
  }
}

module EmailFlagDetectorProperties {
  import opened Foundation
  import opened EmailFlagDetector

  // ------------------------------------------------------------ general laws

  /** The guard: a missing, empty or invalid address is never classified. */
  lemma UncheckableGivesNull(valid: string -> bool, email: Option<string>)
    requires EmailValidator(valid)
    requires email.None? || email.value == "" || !valid(email.value)
    ensures Detect(valid, email) == None
  {
  }

  /** Only the lower-cased address matters: two spellings that differ in case agree. */
  lemma DetectIgnoresCase(valid: string -> bool, e1: string, e2: string)
    requires EmailValidator(valid)
    requires ToLower(e1) == ToLower(e2)
    requires valid(e1) <==> valid(e2)
    ensures Detect(valid, Some(e1)) == Detect(valid, Some(e2))
  {
    // a falsy string ("" or "0") holds no '@', so filter_var rejects it anyway
    assert IsFalsy(Some(e1)) ==> '@' !in e1;
    assert IsFalsy(Some(e2)) ==> '@' !in e2;
  }

  /**
   * Priority: an earlier category decides whatever later categories say, so
   * an address matching both a test and a spam pattern is `test`.
   */
  lemma FirstMatchingCategoryWins(localPart: string, domain: string)
    ensures CategoryMatches(localPart, domain, TestPatterns) ==>
      RuleTable(localPart, domain) == Some(Test)
    ensures (!CategoryMatches(localPart, domain, TestPatterns) &&
             CategoryMatches(localPart, domain, FakePatterns)) ==>
      RuleTable(localPart, domain) == Some(Fake)
    ensures (!CategoryMatches(localPart, domain, TestPatterns) &&
             !CategoryMatches(localPart, domain, FakePatterns) &&
             CategoryMatches(localPart, domain, SpamPatterns)) ==>
      RuleTable(localPart, domain) == Some(Spam)
  {
  }

  /**
   * A disposable domain is never legitimate. It gives fake unless a test rule
   * matched (then test), or a spam rule matched and no fake rule did (then spam):
   * fake is checked before spam, so a fake rule still wins over spam.
   */
  lemma TemporaryDomainIsFallback(localPart: string, domain: string)
    requires domain in TemporaryDomains
    ensures RuleTable(localPart, domain) != None
    ensures RuleTable(localPart, domain) == Some(Test) <==>
      CategoryMatches(localPart, domain, TestPatterns)
    ensures RuleTable(localPart, domain) == Some(Spam) <==>
      !CategoryMatches(localPart, domain, TestPatterns) &&
      !CategoryMatches(localPart, domain, FakePatterns) &&
      CategoryMatches(localPart, domain, SpamPatterns)
    ensures RuleTable(localPart, domain) == Some(Fake) <==>
      !CategoryMatches(localPart, domain, TestPatterns) &&
      (CategoryMatches(localPart, domain, FakePatterns) ||
       !CategoryMatches(localPart, domain, SpamPatterns))
  {
  }

  /** Null exactly when no table and no disposable domain matches. */
  lemma NullMeansNoRuleMatched(localPart: string, domain: string)
    ensures RuleTable(localPart, domain) == None <==>
      !CategoryMatches(localPart, domain, TestPatterns) &&
      !CategoryMatches(localPart, domain, FakePatterns) &&
      !CategoryMatches(localPart, domain, SpamPatterns) &&
      domain !in TemporaryDomains
  {
  }

  // -------------------------------------------------------- concrete addresses

  /** Splitting `local@domain` gives back the two parts. */
  lemma SplitOfParts(localPart: string, domain: string)
    requires '@' !in localPart && '@' !in domain
    ensures '@' in localPart + "@" + domain
    ensures LocalPart(localPart + "@" + domain) == localPart
    ensures DomainPart(localPart + "@" + domain) == domain
  {
    var e := localPart + "@" + domain;
    assert e[|localPart|] == '@';
    assert forall j :: 0 <= j < |localPart| ==> e[j] == localPart[j];
    var at := IndexOf(e, '@');
    assert at == |localPart|;
    assert e[..at] == localPart;
    var rest := e[at + 1..];
    assert rest == domain;
    assert IndexOf(rest, '@') == |domain|;
    assert rest[..IndexOf(rest, '@')] == domain;
  }

  /** No two adjacent characters of `haystack`, from `from` on, are `c0` then `c1`. */
  predicate PairFree(haystack: string, c0: char, c1: char, from: nat)
    decreases |haystack| - from
  {
    from + 1 >= |haystack| ||
    ((haystack[from] != c0 || haystack[from + 1] != c1) && PairFree(haystack, c0, c1, from + 1))
  }

  lemma {:induction false} PairFreeAt(haystack: string, c0: char, c1: char, from: nat, i: nat)
    requires PairFree(haystack, c0, c1, from)
    requires from <= i && i + 1 < |haystack|
    ensures haystack[i] != c0 || haystack[i + 1] != c1
    decreases i - from
  {
    if from < i {
      PairFreeAt(haystack, c0, c1, from + 1, i);
    }
  }

  /** A needle cannot occur where its first two characters never stand side by side. */
  lemma NoOccurrence(haystack: string, needle: string)
    requires |needle| >= 2 && PairFree(haystack, needle[0], needle[1], 0)
    ensures !Contains(haystack, needle)
  {
    forall i ensures !OccursAt(haystack, needle, i) {
      if 0 <= i && i + |needle| <= |haystack| {
        PairFreeAt(haystack, needle[0], needle[1], 0, i);
        if haystack[i] != needle[0] {
          assert haystack[i..i + |needle|][0] != needle[0];
        } else {
          assert haystack[i..i + |needle|][1] != needle[1];
        }
      }
    }
  }

  /** Detect on an address given by its parts, already in lower case. */
  lemma DetectOfParts(valid: string -> bool, localPart: string, domain: string)
    requires EmailValidator(valid) && valid(localPart + "@" + domain)
    requires '@' !in localPart && '@' !in domain
    requires IsLower(localPart) && IsLower(domain)
    ensures Detect(valid, Some(localPart + "@" + domain)) == RuleTable(localPart, domain)
  {
    var e := localPart + "@" + domain;
    SplitOfParts(localPart, domain);
    assert IsLower(e) by {
      assert forall i :: 0 <= i < |localPart| ==> e[i] == localPart[i];
      assert forall i :: |localPart| < i < |e| ==> e[i] == domain[i - |localPart| - 1];
    }
    ToLowerOfLower(e);
  }

  /** A local part that holds a test word makes the address `test`. */
  lemma TestWordIsTest(valid: string -> bool, localPart: string, domain: string, j: nat)
    requires EmailValidator(valid) && valid(localPart + "@" + domain)
    requires '@' !in localPart && '@' !in domain && IsLower(localPart) && IsLower(domain)
    requires j < |TestPatterns| && PatternMatches(TestPatterns[j], localPart, domain)
    ensures Detect(valid, Some(localPart + "@" + domain)) == Some(Test)
  {
    DetectOfParts(valid, localPart, domain);
  }

  /** The upper-case spelling TEST@GMAIL.COM is a test address. */
  lemma UpperCaseTestAddress(valid: string -> bool, localPart: string, domain: string)
    requires localPart == "TEST" && domain == "GMAIL.COM"
    requires EmailValidator(valid) && valid(localPart + "@" + domain) && valid("test" + "@" + "gmail.com")
    ensures Detect(valid, Some(localPart + "@" + domain)) == Some(Test)
  {
    var lowerLocal, lowerDomain := "test", "gmail.com";
    UpperCaseParts(localPart, domain, lowerLocal, lowerDomain);
    ToLowerConcat(localPart, "@");
    ToLowerConcat(localPart + "@", domain);
    ToLowerConcat(lowerLocal, "@");
    ToLowerConcat(lowerLocal + "@", lowerDomain);
    DetectIgnoresCase(valid, localPart + "@" + domain, lowerLocal + "@" + lowerDomain);
    TestAtGmailIsTest(valid, lowerLocal, lowerDomain);
  }

  lemma UpperCaseParts(localPart: string, domain: string, lowerLocal: string, lowerDomain: string)
    requires localPart == "TEST" && domain == "GMAIL.COM" && lowerLocal == "test" && lowerDomain == "gmail.com"
    ensures ToLower(localPart) == lowerLocal == ToLower(lowerLocal)
    ensures ToLower(domain) == lowerDomain == ToLower(lowerDomain)
    ensures ToLower("@") == "@"
  {
    ToLowerOfLower(lowerLocal);
    ToLowerOfLower(lowerDomain);
  }

  /** test@gmail.com: "test" is found in the local part. */
  lemma TestAtGmailIsTest(valid: string -> bool, localPart: string, domain: string)
    requires localPart == "test" && domain == "gmail.com"
    requires EmailValidator(valid) && valid(localPart + "@" + domain)
    ensures Detect(valid, Some(localPart + "@" + domain)) == Some(Test)
  {
    PartFacts(localPart);
    PartFacts(domain);
    OccursAtStart(localPart);
    assert PatternMatches(TestPatterns[0], localPart, domain);
    TestWordIsTest(valid, localPart, domain, 0);
  }

  /** The parts of the concrete addresses: lower-case and free of '@'. */
  lemma PartFacts(s: string)
    requires s in {"test", "gmail.com", "user", "example.com", "tempmail.com", "jane.smith", "example.org"}
    ensures IsLower(s) && '@' !in s
  {
  }

  lemma OccursAtStart(s: string)
    ensures OccursAt(s, s, 0) && Contains(s, s)
  {
    assert s[0..|s|] == s;
  }

  /** A dotted pattern is a whole-domain rule: user@example.com is a test address. */
  lemma ExampleComIsTest(valid: string -> bool, localPart: string, domain: string)
    requires localPart == "user" && domain == "example.com"
    requires EmailValidator(valid) && valid(localPart + "@" + domain)
    ensures Detect(valid, Some(localPart + "@" + domain)) == Some(Test)
  {
    PartFacts(localPart);
    PartFacts(domain);
    assert PatternMatches(TestPatterns[3], localPart, domain);
    TestWordIsTest(valid, localPart, domain, 3);
  }

  /** A disposable domain with an innocent local part is fake: user@tempmail.com. */
  lemma TempmailIsFake(valid: string -> bool, localPart: string, domain: string)
    requires localPart == "user" && domain == "tempmail.com"
    requires EmailValidator(valid) && valid(localPart + "@" + domain)
    ensures Detect(valid, Some(localPart + "@" + domain)) == Some(Fake)
  {
    PartFacts(localPart);
    PartFacts(domain);
    DetectOfParts(valid, localPart, domain);
    UserMissesTables(localPart, domain);
    assert domain == TemporaryDomains[0];
  }

  /** A similar but different domain is not a rule: jane.smith@example.org is legitimate. */
  lemma ExampleOrgIsLegitimate(valid: string -> bool, localPart: string, domain: string)
    requires localPart == "jane.smith" && domain == "example.org"
    requires EmailValidator(valid) && valid(localPart + "@" + domain)
    ensures Detect(valid, Some(localPart + "@" + domain)) == None
  {
    PartFacts(localPart);
    PartFacts(domain);
    DetectOfParts(valid, localPart, domain);
    JaneMissesTables(localPart, domain);
    NotDisposable(domain);
  }

  lemma NotDisposable(domain: string)
    requires domain == "example.org"
    ensures domain !in TemporaryDomains
  {
    assert domain[0] != "yopmail.com"[0];
  }

  /** "user" holds none of the words of the three tables. */
  lemma UserLacksWord(localPart: string, word: string)
    requires localPart == "user"
    requires word in {"test", "demo", "sample", "localhost", "qa", "staging", "develop",
                      "fake", "faker", "notreal", "nope", "invalid",
                      "spam", "no-reply", "noreply", "do-not-reply", "donotreply", "auto-reply", "autoreply"}
    ensures !Contains(localPart, word)
  {
    NoOccurrence("user", word);
  }

  /** "jane.smith" holds none of the words of the three tables. */
  lemma JaneLacksWord(localPart: string, word: string)
    requires localPart == "jane.smith"
    requires word in {"test", "demo", "sample", "localhost", "qa", "staging", "develop",
                      "fake", "faker", "notreal", "nope", "invalid",
                      "spam", "no-reply", "noreply", "do-not-reply", "donotreply", "auto-reply", "autoreply"}
    ensures !Contains(localPart, word)
  {
    NoOccurrence("jane.smith", word);
  }

  /** user@tempmail.com matches no test, fake or spam rule. */
  lemma UserMissesTables(localPart: string, domain: string)
    requires localPart == "user" && domain == "tempmail.com"
    ensures !CategoryMatches(localPart, domain, TestPatterns)
    ensures !CategoryMatches(localPart, domain, FakePatterns)
    ensures !CategoryMatches(localPart, domain, SpamPatterns)
  {
    forall j | 0 <= j < |TestPatterns| ensures !PatternMatches(TestPatterns[j], localPart, domain) {
      if '.' !in TestPatterns[j] {
        UserLacksWord(localPart, TestPatterns[j]);
      }
    }
    forall j | 0 <= j < |FakePatterns| ensures !PatternMatches(FakePatterns[j], localPart, domain) {
      UserLacksWord(localPart, FakePatterns[j]);
    }
    forall j | 0 <= j < |SpamPatterns| ensures !PatternMatches(SpamPatterns[j], localPart, domain) {
      UserLacksWord(localPart, SpamPatterns[j]);
    }
  }

  /** jane.smith@example.org matches no test, fake or spam rule: example.org is not example.com. */
  lemma JaneMissesTables(localPart: string, domain: string)
    requires localPart == "jane.smith" && domain == "example.org"
    ensures !CategoryMatches(localPart, domain, TestPatterns)
    ensures !CategoryMatches(localPart, domain, FakePatterns)
    ensures !CategoryMatches(localPart, domain, SpamPatterns)
  {
    forall j | 0 <= j < |TestPatterns| ensures !PatternMatches(TestPatterns[j], localPart, domain) {
      if '.' !in TestPatterns[j] {
        JaneLacksWord(localPart, TestPatterns[j]);
      }
    }
    forall j | 0 <= j < |FakePatterns| ensures !PatternMatches(FakePatterns[j], localPart, domain) {
      JaneLacksWord(localPart, FakePatterns[j]);
    }
    forall j | 0 <= j < |SpamPatterns| ensures !PatternMatches(SpamPatterns[j], localPart, domain) {
      JaneLacksWord(localPart, SpamPatterns[j]);
    }
  }
}
