# Lead ingestion and classification, modelled in Dafny

This project models the core of a Laravel application that collects website form submissions ("leads").

**Modules**
- **`EmailFlagDetector`** holds the email classifier as a rule table:
  - four constant tables (test, fake, spam, disposable domains);
  - a fixed priority order;
  - dotted patterns that name a whole domain, and other patterns searched for in the local part.
- **`EmailFlagDetectorProperties`** proves the classifier's laws:
  - priority;
  - case-insensitivity;
  - the guard;
  - null when nothing matches;
  - the addresses of the unit tests.
- **`LeadModel`** holds:
  - `Lead::extractEmail` (priority keys, then the first valid string value);
  - the `creating` hook `autoFlagIfNeeded`, as a method on a `Lead` class that changes only the two flag fields;
  - `Lead::create` over a `LeadStore` class, whose rows keep strictly increasing ids.
- **`LeadStatusEnum`** holds the three-valued status enum and its backing strings.
- **`SiteModel`** holds the `Site` model:
  - mass assignment of the fillable attributes;
  - the `name` accessor;
  - the `creating` hook, which fills in an API key and lower-cases the domain.
- **`ApiKeyGate`** holds the `site.api_key` middleware, as a function from the `X-API-Key` header and the sites table to a 401 or the resolved active site.
- **`StoreLeadRequest`** holds the 1 MiB body check, which runs before the rules, and the `form_name` / `form_data` / `submitted_at` rules.
- **`LeadIngestion`** holds the API controller `__invoke` (201 or 500) and the whole `POST /api/leads` route, as methods over the lead store.
- **`LeadListing`** holds the web `LeadController`:
  - `index`: conjunctive filters, newest first, pages of 15, as functions over the rows;
  - `update`: the status whitelist and an in-place status change, as a method.
- **`UpdateSiteRequest`** holds:
  - `extractDomain`: trim, strip the scheme, strip one `www.`, cut the path, lower-case;
  - the hostname regular expression, proved equal to "labels then a TLD";
  - `prepareForValidation`;
  - the `sometimes` rules.
- **`DomainExamples`** checks the concrete domains and URLs of the site tests against that normaliser and pattern.
  - Those tests post to the site *creation* route, whose request is not part of this model. That it normalises and checks a domain the way the update request does is an assumption drawn from the tests' expected values, not something read from the create request's code.

**Calls into code outside the model become parameters**
- `valid: string -> bool` stands for `filter_var(…, FILTER_VALIDATE_EMAIL)`. The model assumes only that an address it accepts contains `@` (`EmailValidator`).
- `parseDate` stands for Laravel's `date` rule and the `datetime` cast.
- `now` is the clock.
- `freshKey` stands for `Str::uuid()`.
- `writeFails` stands for a database exception during `Lead::create`.
- `json` stands for the JSON text of `form_data` that the search matches.

**Where the descriptive documentation and the code disagree, the model follows the code**
- `detect`'s doc comment lists a `duplicate` reason. The code never returns it, so `FlagReason` has three cases.

## Model

| member | source | states |
|---|---|---|
| `Foundation.ToLower` | app/Services/EmailFlagDetector.php:78 | strtolower keeps the length, maps each character through ASCII lower-casing, and yields a lower-case string |
| `Foundation.ToLowerIdempotent` | app/Services/EmailFlagDetector.php:78 | lower-casing twice is lower-casing once |
| `Foundation.ToLowerConcat` | app/Services/EmailFlagDetector.php:78 | lower-casing distributes over concatenation |
| `Foundation.Trim` | app/Http/Requests/Sites/UpdateSiteRequest.php:35 | trim's result begins and ends with a character trim does not remove |
| `Foundation.TrimCutsOnlyEnds` | app/Http/Requests/Sites/UpdateSiteRequest.php:35 | trim's result is a contiguous slice of the input, and everything cut before and after it is a trim character |
| `Foundation.Contains` | app/Services/EmailFlagDetector.php:117 | str_contains is true exactly when the needle occurs at some position |
| `Foundation.IndexOf` | app/Services/EmailFlagDetector.php:79 | the first position of a character, or the length when it is absent |
| `Foundation.Lookup` | app/Models/Lead.php:105 | `$formData[$key]` is set exactly when some entry has that key, and then it is that entry's value |
| `LeadStatusEnum.LeadStatus.Value` | app/Enums/LeadStatus.php:7-9 | each case's backing string is one of new, contacted, converted |
| `LeadStatusEnum.TryFrom` | app/Enums/LeadStatus.php:5-10 | tryFrom finds a case exactly for the three backing strings, and that case's value is the string |
| `LeadStatusEnum.RoundTrip` | app/Enums/LeadStatus.php:5-10 | case to string and back yields the same case |
| `LeadStatusEnum.ValuesAreDistinct` | app/Enums/LeadStatus.php:7-9 | two cases with the same backing string are the same case |
| `LeadStatusEnum.ValuesCoverAllValues` | app/Enums/LeadStatus.php:7-9 | exactly three backing strings, each the value of some case |
| `EmailFlagDetector.FlagReason.Name` | app/Services/EmailFlagDetector.php:70-102 | a stored reason is test, fake or spam; `duplicate` is never produced |
| `EmailFlagDetector.MatchesPatterns` | app/Services/EmailFlagDetector.php:107-124 | true exactly when some pattern of the table matches: a dotted pattern equal to the domain, any other contained in the local part |
| `EmailFlagDetector.IsTemporaryDomain` | app/Services/EmailFlagDetector.php:129-132 | true exactly when the domain is one of the ten disposable domains |
| `EmailFlagDetector.LocalPart` | app/Services/EmailFlagDetector.php:79 | the text before the first '@' |
| `EmailFlagDetector.DomainPart` | app/Services/EmailFlagDetector.php:79 | the '@'-free text right after the first '@', running up to the next '@' or the end of the address |
| `EmailFlagDetector.Classify` | app/Services/EmailFlagDetector.php:81-101 | the if-chain equals the rule table: test, then fake, then spam, then disposable domain as fake, else null |
| `EmailFlagDetector.Detect` | app/Services/EmailFlagDetector.php:72-102 | null for a missing, falsy or invalid address; otherwise the rule table on the parts of the lower-cased address |
| `EmailFlagDetector.LowerPreservesAt` | app/Services/EmailFlagDetector.php:78-79 | lower-casing keeps the '@' that explode splits on |
| `EmailFlagDetectorProperties.UncheckableGivesNull` | app/Services/EmailFlagDetector.php:74-76 | a null, empty or invalid address yields null |
| `EmailFlagDetectorProperties.DetectIgnoresCase` | app/Services/EmailFlagDetector.php:78 | two addresses with the same lower-case form (and the same validity) are classified alike |
| `EmailFlagDetectorProperties.FirstMatchingCategoryWins` | app/Services/EmailFlagDetector.php:82-94 | the earliest matching category of test, fake, spam decides, whatever later ones say |
| `EmailFlagDetectorProperties.TemporaryDomainIsFallback` | app/Services/EmailFlagDetector.php:96-99 | a disposable domain never gives null: test exactly when a test rule matches, spam exactly when a spam rule but no test or fake rule matches, and fake in every other case (so a fake rule beats spam, as in fakespam@tempmail.com) |
| `EmailFlagDetectorProperties.NullMeansNoRuleMatched` | app/Services/EmailFlagDetector.php:81-101 | null exactly when no table rule and no disposable domain matches |
| `EmailFlagDetectorProperties.SplitOfParts` | app/Services/EmailFlagDetector.php:79 | explode of `local@domain` gives back both parts |
| `EmailFlagDetectorProperties.NoOccurrence` | app/Services/EmailFlagDetector.php:117 | a needle whose first two characters never stand side by side in the haystack is not contained in it |
| `EmailFlagDetectorProperties.DetectOfParts` | app/Services/EmailFlagDetector.php:78-79 | a valid lower-case address given by its parts is classified by the rule table on those parts |
| `EmailFlagDetectorProperties.TestWordIsTest` | app/Services/EmailFlagDetector.php:82-84 | a valid lower-case address whose parts match a test rule is test |
| `EmailFlagDetectorProperties.TestAtGmailIsTest` | tests/Unit/EmailFlagDetectorTest.php:19-21 | test@gmail.com is test |
| `EmailFlagDetectorProperties.UpperCaseTestAddress` | tests/Unit/EmailFlagDetectorTest.php:87-89 | TEST@GMAIL.COM is test, the same as its lower-case spelling |
| `EmailFlagDetectorProperties.ExampleComIsTest` | tests/Unit/EmailFlagDetectorTest.php:38-40 | user@example.com is test through the whole-domain rule example.com |
| `EmailFlagDetectorProperties.TempmailIsFake` | tests/Unit/EmailFlagDetectorTest.php:65-67 | user@tempmail.com is fake through the disposable-domain list |
| `EmailFlagDetectorProperties.ExampleOrgIsLegitimate` | tests/Unit/EmailFlagDetectorTest.php:73-76 | jane.smith@example.org is null: example.org is no rule and "jane.smith" holds no word |
| `EmailFlagDetectorProperties.UserMissesTables` | app/Services/EmailFlagDetector.php:13-48 | user@tempmail.com matches no test, fake or spam rule |
| `EmailFlagDetectorProperties.JaneMissesTables` | app/Services/EmailFlagDetector.php:13-48 | jane.smith@example.org matches no test, fake or spam rule |
| `EmailFlagDetectorProperties.NotDisposable` | app/Services/EmailFlagDetector.php:53-64 | example.org is not a disposable domain |
| `LeadModel.FirstKeyedEmail` | app/Models/Lead.php:104-108 | none exactly when no priority key holds a valid email; otherwise the value under the first key that does |
| `LeadModel.FirstEmailValue` | app/Models/Lead.php:111-115 | none exactly when no value is a valid string; otherwise the first valid string in form order |
| `LeadModel.FirstKeyUnique` | app/Models/Lead.php:104-108 | the first key holding an email is unique |
| `LeadModel.FirstEntryUnique` | app/Models/Lead.php:111-115 | the first entry holding an email is unique |
| `LeadModel.ExtractEmail` | app/Models/Lead.php:94-118 | non-array data gives none; a result is a valid email returned as stored; a priority key beats the fallback; the fallback takes the first valid string; none exactly when no value is a valid string |
| `LeadModel.AutoFlag` | app/Models/Lead.php:70-89 | a truthy flag or no email leaves both flag fields as they were; otherwise a non-null reason sets reason and timestamp together, and a null reason changes nothing |
| `LeadModel.AutoFlagIdempotent` | app/Models/Lead.php:73-75 | running the hook again, at any later time, changes nothing |
| `LeadModel.NoEmailNoFlag` | app/Models/Lead.php:77-80 | form data with no valid email is never flagged |
| `LeadModel.PriorityKeyBeatsEarlierField` | app/Models/Lead.php:102-108 | an `email` key wins over a valid email in an earlier, non-priority field |
| `LeadModel.EarlierPriorityKeyWins` | app/Models/Lead.php:102-108 | `e-mail` beats `contact_email`, whatever the form order |
| `LeadModel.FallbackTakesFirstValidString` | app/Models/Lead.php:111-115 | without priority keys, numbers and invalid strings are skipped and the first valid string is taken |
| `LeadModel.Lead.constructor` | app/Models/Lead.php:20-30 | a new Lead holds exactly the nine fillable attributes given |
| `LeadModel.Lead.Attributes` | app/Models/Lead.php:20-30 | the attribute array reflects the instance's form data and flag fields |
| `LeadModel.Lead.AutoFlagIfNeeded` | app/Models/Lead.php:70-89 | only flag_reason and flagged_at may change, and they become what AutoFlag gives |
| `LeadModel.CreatedRecord` | app/Models/Lead.php:54-56 | the stored row is the given attributes with only the flag pair replaced by the creating hook's result |
| `LeadModel.LeadStore.constructor` | database/migrations/2026_01_19_083914_create_leads_table.php:14-15 | an empty leads table whose first auto-increment id is 1 |
| `LeadModel.LeadStore.Insert` | app/Http/Controllers/Api/LeadController.php:18-26 | appends one row under the next id, keeping ids positive and increasing |
| `LeadModel.LeadStore.SetStatus` | app/Http/Controllers/LeadController.php:78-80 | replaces one row's status; its id, its other fields and every other row stay |
| `LeadModel.LeadStore.Find` | app/Http/Controllers/LeadController.php:72 | the position of the row with the id, none exactly when no row has it |
| `LeadModel.FindFrom` | app/Http/Controllers/LeadController.php:72 | the same search over a sequence of rows |
| `LeadModel.Create` | app/Http/Controllers/Api/LeadController.php:18-26 | fills a Lead, runs the hook, and inserts it under the next id; a failing write stores nothing |
| `SiteModel.MassAssignable` | app/Models/Site.php:20-24 | fill keeps exactly the fillable keys of the input, with their values |
| `SiteModel.ApiKeyNotMassAssignable` | app/Models/Site.php:20-24 | mass assignment can never set api_key |
| `SiteModel.Site.constructor` | app/Models/Site.php:20-24 | a site instance holds the attributes given |
| `SiteModel.Site.Name` | app/Models/Site.php:49-52 | the name attribute is always site_name |
| `SiteModel.Site.Creating` | app/Models/Site.php:61-66 | an empty key (null, "" or "0") becomes the fresh key; a non-empty key is kept; the key is non-empty afterwards; the domain becomes its lower-case form |
| `ApiKeyGate.FirstActiveWithKey` | app/Http/Middleware/EnsureSiteApiKeyIsValid.php:34-36 | none exactly when no active site has the key; otherwise the first active site with it, in the order of the sequence that stands for the table |
| `ApiKeyGate.Handle` | app/Http/Middleware/EnsureSiteApiKeyIsValid.php:18-54 | a falsy header gives "API key is required."; a key of no active site gives "Invalid or inactive API key."; otherwise the first active site with the key is forwarded |
| `ApiKeyGate.InactiveSiteIsInvisible` | app/Http/Middleware/EnsureSiteApiKeyIsValid.php:34-36 | inserting an inactive site anywhere in the table does not change the lookup |
| `ApiKeyGate.InactiveKeyLikeUnknownKey` | app/Http/Middleware/EnsureSiteApiKeyIsValid.php:38-48 | a key held only by an inactive site gets the unknown-key 401 |
| `ApiKeyGate.ActiveKeyIsForwarded` | app/Http/Middleware/EnsureSiteApiKeyIsValid.php:51-53 | the first active site with the key is the one attached to the request |
| `StoreLeadRequest.Field.Key` | app/Http/Requests/StoreLeadRequest.php:25-27 | the three validated fields are form_name, form_data and submitted_at |
| `StoreLeadRequest.FieldErrors` | app/Http/Requests/StoreLeadRequest.php:22-29 | a field is reported exactly when its rules fail, each at most once |
| `StoreLeadRequest.SubmittedAtOf` | app/Http/Controllers/Api/LeadController.php:25 | absent stays absent; a string is passed on as given |
| `StoreLeadRequest.Validate` | app/Http/Requests/StoreLeadRequest.php:22-41 | 413 exactly when the body exceeds 1 MiB, before any rule; valid exactly when all three rules pass; otherwise the failing fields |
| `StoreLeadRequest.SizeBoundary` | app/Http/Requests/StoreLeadRequest.php:38-40 | 1048577 bytes is 413 even with fields missing; 1048576 bytes passes the size check |
| `StoreLeadRequest.FormDataMustBeNonEmptyArray` | app/Http/Requests/StoreLeadRequest.php:26 | a string or an empty array fails form_data |
| `StoreLeadRequest.FormNameLengthBoundary` | app/Http/Requests/StoreLeadRequest.php:25 | a form_name of 255 characters passes and one of 256 fails |
| `StoreLeadRequest.SubmittedAtRule` | app/Http/Requests/StoreLeadRequest.php:27 | submitted_at may be absent or null; an unparsable date string fails |
| `LeadIngestion.ApiResponse.Status` | app/Http/Controllers/Api/LeadController.php:28-37 | every response has status 201, 500, 401, 413 or 422 |
| `LeadIngestion.ApiResponse.Success` | app/Http/Controllers/Api/LeadController.php:28-36 | success is true exactly for 201 and false exactly for 500 |
| `LeadIngestion.ApiResponse.Message` | app/Http/Controllers/Api/LeadController.php:32-36 | 500 carries "Failed to store lead." and 413 the payload message |
| `LeadIngestion.SubmissionTime` | app/Http/Controllers/Api/LeadController.php:25 | an absent submitted_at becomes now, a null stays null, a string is parsed |
| `LeadIngestion.IncomingAttributes` | app/Http/Controllers/Api/LeadController.php:18-26 | status new, the gate's site id, form name and data as validated, ip and agent as given, no flag |
| `LeadIngestion.Invoke` | app/Http/Controllers/Api/LeadController.php:15-38 | a failing write gives 500 and stores nothing; otherwise exactly one row is appended and 201 carries its id |
| `LeadIngestion.HandleSubmission` | routes/api.php:17-18 | gate, then size check, then rules, then controller; only a 201 adds a row, exactly one |
| `LeadIngestion.CreatedLeadFields` | app/Http/Controllers/Api/LeadController.php:18-26 | the stored lead has status new, the resolved site, the form data as submitted, submitted_at defaulting to now, and the detector's flag |
| `LeadListing.Conditions` | app/Http/Controllers/LeadController.php:19-41 | when no filter is filled (absent, or a blank status or search), no condition is added; at most five conditions |
| `LeadListing.ConditionsMeanFilters` | app/Http/Controllers/LeadController.php:19-41 | the added conditions hold exactly when every filled filter holds |
| `LeadListing.HoldsAllConcat` | app/Http/Controllers/LeadController.php:19-41 | chained conditions hold exactly when both groups hold |
| `LeadListing.Where` | app/Http/Controllers/LeadController.php:20 | a where keeps exactly the rows satisfying its condition, each as often as in its input |
| `LeadListing.WhereAll` | app/Http/Controllers/LeadController.php:19-41 | keeps exactly the rows satisfying every condition, each as often as in its input |
| `LeadListing.QueryIsConjunction` | app/Http/Controllers/LeadController.php:19-41 | applying the wheres one by one equals filtering by their conjunction |
| `LeadListing.InsertNewestFirst` | app/Http/Controllers/LeadController.php:43 | inserting into a newest-first list keeps it newest first and adds exactly that row |
| `LeadListing.SortNewestFirst` | app/Http/Controllers/LeadController.php:43 | the result is newest first and a permutation of the input |
| `LeadListing.Page` | app/Http/Controllers/LeadController.php:43 | page p holds rows 15(p-1) up to 15p, at most 15; pages below 1 read as page 1; order is kept |
| `LeadListing.RowIsOnItsPage` | app/Http/Controllers/LeadController.php:43 | row i is item i mod 15 of page i div 15 + 1 |
| `LeadListing.Index` | app/Http/Controllers/LeadController.php:14-57 | at most 15 rows, newest first, each from the table and matching every filled filter |
| `LeadListing.AllPagesAreTheMatchingRows` | app/Http/Controllers/LeadController.php:19-43 | the ordered list is newest first and holds each row matching every filled filter exactly as often as in the table, and no other row |
| `LeadListing.NoFilterRestricts` | app/Http/Controllers/LeadController.php:19-35 | with no filter filled, the whole table is listed |
| `LeadListing.WhitelistIsLeadStatusValues` | app/Http/Controllers/LeadController.php:75 | the update whitelist is exactly the enum's backing strings |
| `LeadListing.UpdateStatus` | app/Http/Controllers/LeadController.php:72-83 | a missing lead is 404 and an unlisted status is rejected, both changing nothing; an accepted status replaces only that lead's status |
| `UpdateSiteRequest.StripProtocol` | app/Http/Requests/Sites/UpdateSiteRequest.php:38 | a leading https:// or http://, in any case, is removed; otherwise the string is kept |
| `UpdateSiteRequest.StripWww` | app/Http/Requests/Sites/UpdateSiteRequest.php:41 | one leading www., in any case, is removed |
| `UpdateSiteRequest.FindPathStart` | app/Http/Requests/Sites/UpdateSiteRequest.php:44 | the leftmost position where the path pattern matches |
| `UpdateSiteRequest.CutPath` | app/Http/Requests/Sites/UpdateSiteRequest.php:44 | the whole string when no path matches; otherwise exactly the text before the matched '/', followed by the final line break when one follows it |
| `UpdateSiteRequest.ExtractDomain` | app/Http/Requests/Sites/UpdateSiteRequest.php:33-47 | the normalised domain is lower-case |
| `UpdateSiteRequest.ExtractDomainHasNoSlash` | app/Http/Requests/Sites/UpdateSiteRequest.php:44-46 | without a line break in the input, the result contains no '/' |
| `UpdateSiteRequest.TrimOfTrimmed` | app/Http/Requests/Sites/UpdateSiteRequest.php:35 | trim keeps a string with no trim character at either end |
| `UpdateSiteRequest.SchemeStripped` | app/Http/Requests/Sites/UpdateSiteRequest.php:38 | an any-case scheme in front is removed |
| `UpdateSiteRequest.WwwStripped` | app/Http/Requests/Sites/UpdateSiteRequest.php:41 | an any-case www. in front is removed |
| `UpdateSiteRequest.PathCut` | app/Http/Requests/Sites/UpdateSiteRequest.php:44 | host/path loses the path |
| `UpdateSiteRequest.UrlNormalisesToHost` | app/Http/Requests/Sites/UpdateSiteRequest.php:33-47 | scheme, www., host and path normalise to the lower-cased host |
| `UpdateSiteRequest.BareHostUnchanged` | app/Http/Requests/Sites/UpdateSiteRequest.php:33-47 | a trimmed lower-case host without scheme, www. or '/' is its own normal form |
| `UpdateSiteRequest.SplitOnDots` | app/Http/Requests/Sites/UpdateSiteRequest.php:63 | a dot-free string is one part |
| `UpdateSiteRequest.DomainSyntaxIsLabelsThenTld` | app/Http/Requests/Sites/UpdateSiteRequest.php:63 | the pattern accepts exactly one or more labels then a TLD of two or more letters |
| `UpdateSiteRequest.LabelDotDomain` | app/Http/Requests/Sites/UpdateSiteRequest.php:63 | a label, a dot and a TLD or valid domain is a valid domain |
| `UpdateSiteRequest.NoDotNoDomain` | app/Http/Requests/Sites/UpdateSiteRequest.php:63 | a string without a dot is refused |
| `UpdateSiteRequest.EmptyLabelNoDomain` | app/Http/Requests/Sites/UpdateSiteRequest.php:63 | a leading dot, a trailing dot or two dots in a row are refused |
| `UpdateSiteRequest.StrayCharNoDomain` | app/Http/Requests/Sites/UpdateSiteRequest.php:63 | any character other than a letter, a digit, '-' or '.' is refused |
| `UpdateSiteRequest.HyphenEdgeNoDomain` | app/Http/Requests/Sites/UpdateSiteRequest.php:63 | a first label starting or ending with '-' is refused |
| `UpdateSiteRequest.DecimalString` | app/Http/Requests/Sites/UpdateSiteRequest.php:33 | an int passed as a string is non-empty and made of digits and '-' |
| `UpdateSiteRequest.AsStringArgument` | app/Http/Requests/Sites/UpdateSiteRequest.php:33 | null or an array cannot be passed as a string; a string passes unchanged |
| `UpdateSiteRequest.Prepare` | app/Http/Requests/Sites/UpdateSiteRequest.php:21-28 | only a present domain is rewritten, to its normal form; a null or array domain fails; other fields are untouched |
| `UpdateSiteRequest.SiteFieldErrors` | app/Http/Requests/Sites/UpdateSiteRequest.php:54-68 | a field is reported exactly when its rules fail |
| `UpdateSiteRequest.ValidateUpdate` | app/Http/Requests/Sites/UpdateSiteRequest.php:21-68 | accepted exactly when every present field passes after normalisation; absent fields are never reported; an accepted domain matches the pattern, is lower-case and at most 255 characters |
| `DomainExamples.UrlWithoutPathNormalisesToHost` | app/Http/Requests/Sites/UpdateSiteRequest.php:33-47 | scheme, www. and host normalise to the lower-cased host |
| `DomainExamples.UrlWithoutWwwNormalisesToHost` | app/Http/Requests/Sites/UpdateSiteRequest.php:33-47 | scheme, host and path normalise to the lower-cased host |
| `DomainExamples.SchemeHostNormalisesToHost` | app/Http/Requests/Sites/UpdateSiteRequest.php:33-47 | scheme and host normalise to the lower-cased host |
| `DomainExamples.WwwWithoutScheme` | app/Http/Requests/Sites/UpdateSiteRequest.php:33-47 | www. and host normalise to the lower-cased host |
| `DomainExamples.NoWwwKept` | app/Http/Requests/Sites/UpdateSiteRequest.php:41 | a string not starting with 'w' keeps its front |
| `DomainExamples.NoSchemeKept` | app/Http/Requests/Sites/UpdateSiteRequest.php:38 | a string not starting with 'h' has no scheme to strip |
| `DomainExamples.WwwHostWithSlash` | tests/Feature/SiteManagementTest.php:124 | https://www.theassignmenthelp.co.nz/ normalises to theassignmenthelp.co.nz |
| `DomainExamples.WwwHost` | tests/Feature/SiteManagementTest.php:125-126 | https and http with www. normalise to example.com |
| `DomainExamples.SchemeHost` | tests/Feature/SiteManagementTest.php:127 | https://example.com normalises to example.com |
| `DomainExamples.HostWithPath` | tests/Feature/SiteManagementTest.php:128-129 | a trailing slash or a path is dropped |
| `DomainExamples.WwwHostWithoutScheme` | tests/Feature/SiteManagementTest.php:130 | www.example.com normalises to example.com |
| `DomainExamples.BareHost` | tests/Feature/SiteManagementTest.php:131 | example.com (and invaliddomain) is its own normal form |
| `DomainExamples.WwwStrippedOnce` | app/Http/Requests/Sites/UpdateSiteRequest.php:41 | www.www.a.com gives www.a.com, which gives a.com: normalising is not idempotent |
| `DomainExamples.ValidTwoPartDomains` | tests/Feature/SiteManagementTest.php:89-97 | example.com, my-site.com, site123.com and example.museum match |
| `DomainExamples.ValidSubdomain` | tests/Feature/SiteManagementTest.php:91 | blog.example.com matches |
| `DomainExamples.ValidSecondLevelDomain` | tests/Feature/SiteManagementTest.php:92 | example.co.uk matches |
| `DomainExamples.ValidDeepDomain` | tests/Feature/SiteManagementTest.php:93 | api.v2.example.org matches |
| `DomainExamples.InvalidDomains` | tests/Feature/SiteManagementTest.php:69-79 | all nine invalid formats and invaliddomain are refused; the two hyphenated ones go through the same first-label check as `HyphenatedEdges` |
| `DomainExamples.HyphenatedEdges` | tests/Feature/SiteManagementTest.php:75-76 | -example.com and example-.com are refused |
| `DomainExamples.DeactivateOnly` | tests/Feature/SiteManagementTest.php:204-217 | an update carrying only is_active false is accepted and changes nothing else |
| `DomainExamples.OnlyDomainRejected` | app/Http/Requests/Sites/UpdateSiteRequest.php:57-66 | an update with only a failing domain is rejected on the domain field alone |
| `DomainExamples.RejectedDomainUpdate` | app/Http/Requests/Sites/UpdateSiteRequest.php:23-27 | a domain that is its own normal form but fails the pattern rejects the update on the domain only |
| `DomainExamples.InvalidDomainUpdateRejected` | tests/Feature/SiteManagementTest.php:219-227 | updating a site's domain to invaliddomain is rejected on the domain field |

## Left out

- filter_var, Laravel's `date` rule and `datetime` cast, `Str::uuid()` and `now()` are parameters. Of filter_var only "a valid address contains '@'" is assumed, and a fresh key is any 36-character string.
- The warning logs of the API-key middleware are I/O with no effect on the outcome.
- The `throttle:leads` rate limiter is framework configuration kept elsewhere.
- SiteController and Api\SiteController are not part of this model: CRUD calls wrapped in rendering. So is the site create request, whose text is not part of the source. The site tests that post to the create route are checked against the update request's normaliser and pattern; that the create route behaves the same is assumed from those tests' expected values.
- The `unique` domain rule is a database query.
- The search's SQL `LIKE` collation and case folding are not modelled: it is plain substring containment. The JSON serialisation of form_data is the parameter `json`.
- Pagination metadata, `withQueryString`, the sites dropdown, Inertia rendering, the `show` action and the eager loading of `site` are not modelled.
- Migrations and factories are schema and test data.
- Numbers in form data are integers; floats are not modelled. A number passed to `extractDomain` is written as a decimal integer.
- `whereDate` takes the UTC day of an instant. A `submitted_at` given as a number rather than a string is not modelled.
- The order among rows with the same `submitted_at` is left unspecified, as the database leaves it. Where NULLs sort is database-dependent; the model puts them last, as MySQL and SQLite do for a descending order.
- JSON objects with repeated keys are not modelled. PHP's json_decode keeps one entry per key, at the first occurrence's position, holding the last value; the model's `Lookup` reads the first entry, so form data is taken to have distinct keys.
- The global TrimStrings and ConvertEmptyStringsToNull middleware are not modelled. Blank strings are treated as Laravel's validator treats them: they fail `required` and skip the other rules.
- Custom validation messages are not modelled; a rejection lists the failing fields.
- A related-lead lookup by shared email has no code and is not modelled.
- FirstActiveWithKey: `first()` without `orderBy` leaves the choice among several active sites with the same key to the database; the model reads the table as a sequence and takes the first in that sequence. It does not assume that `api_key` is unique.
- Route model binding in `update` is read as a lookup by id that gives 404 when the lead is missing. The redirect and flash message are not modelled.
