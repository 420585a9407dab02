# Okta user import for GLPI — a Dafny model

The okta plugin for GLPI (itsmng) imports the members of Okta groups into
GLPI's user table. This project models the core of that import in Dafny and
proves properties of the model:

- **OktaClient.** The client builds request URLs from its base URL. It records
  the response header lines through curl's header callback, and it decides
  whether an exchange succeeded. It also parses the `Link` header that Okta
  uses for pagination: the `<url>; rel="name"` form of section 3 of RFC 8288.
- **GroupService.** It builds the directory of groups (id => escaped name) and
  filters it by a case-insensitive name pattern. It also pages through the
  members of a group by following `rel="next"` links.
- **UserRepository.** It looks up a user id by e-mail among LDAP (3) and
  external (4) accounts, and sets a user's supervisor.
- **UserImportService.** One import run does the following:
  - it collects the members of the authorised groups into a user list, one
    entry per Okta id, each with every group that lists the user;
  - it normalises and filters each user's fields;
  - it applies the duplicate check;
  - it finds an existing account, then creates it, updates it, or only links
    its manager;
  - it remembers managers it cannot find yet and resolves them after all
    users are placed;
  - it optionally runs a sweep that activates listed accounts and
    deactivates unlisted ones.

Modules, in the order they build on each other:

- `Php` (php.dfy): PHP values (`Json`) and truthiness, the string builtins the
  core relies on, and the ordered PHP array `OMap`.
  - The string builtins are `addslashes`/`stripslashes`, `ltrim`/`rtrim`/`trim`,
    `strtolower`, substring search and `html_entity_decode`.
  - `OMap` pairs the key order with a map.
- `Api` (okta_client.dfy): `OktaClient`, the header collector, response
  classification, the Link-header pattern `<(.*?)>;\s*rel="(.*?)"` written out
  as a matcher, and `ParseLinkHeader`.
- `Groups` (group_service.dfy): `GroupService` and the functions that specify
  its loops.
- `Repository` (user_repository.dfy): the user table (`UserRec`) and an
  in-memory `UserStore` that stands for the GLPI database.
  - The store keeps a ghost log of the writes made to it.
  - The module also holds `UserRepository`.
- `ImportRules` (import_rules.dfy): the claim tables `API_MAPPINGS` and
  `OIDC_TRANSLATION`, `buildUserObject`, the normalise/filter rules, the
  duplicate check, `findExistingUser` and `resolveManagerId`.
- `ImportFlow` (import_flow.dfy): every step of a run as a function of the
  state before it (`State`: the rows, the next auto-increment id, the write
  log and the pending table), with the lemmas about those functions.
- `Import` (user_import_service.dfy): the `UserImportService` class.
  - Its methods change the store and the pending table in place.
  - Each method is proved to have the effect the `ImportFlow` function
    describes: `(r, Snapshot()) == F(old(Snapshot()), ...)`.

Things the core calls but that are not part of it become parameters:

- The HTTP transport is `string -> Exchange`, and the client's `request()`,
  as the services see it, is `string -> Option<Response>`.
- The PCRE engine is split in two. `Host.strip` stands for `preg_replace`
  and `Host.matches` for `preg_match`. For group names a `matcher` returns
  a `MatchOutcome` (`Matched`, `NoMatch`, `Raised`).
- The GLPI rule engine `RuleRightCollection::processAllRules` is
  `Host.admits`.
- `Oidc::addUserData` is `Host.writeProfile`.

## Model

| member | source | states |
|---|---|---|
| Php.StripSlashesUndoesAddSlashes | src/Services/GroupService.php:67-92 | stripslashes undoes addslashes for every string, so a stored group name unescapes to the Okta name |
| Php.AddSlashesConcat | src/Services/GroupService.php:67 | addslashes works character by character: escaping a concatenation is the concatenation of the escapes |
| Php.AddSlashesPlain | src/Services/GroupService.php:67 | a string without quote, double quote, backslash or NUL is left unchanged by addslashes |
| Php.EscapedRoundTrip | src/Services/GroupService.php:90-93 | an escaped name unescaped and escaped again is the stored value, so the regex filter stores exactly what getGroups stored |
| Php.TrimLeft | src/Api/OktaClient.php:149 | ltrim removes exactly the longest prefix made of the given characters; the result is a suffix that does not start with one |
| Php.TrimRight | src/Api/OktaClient.php:53 | rtrim removes exactly the longest suffix made of the given characters; the result is a prefix that does not end with one |
| Php.ToLower | src/Api/OktaClient.php:98 | strtolower keeps the length, lowers each of 'A'..'Z' to its lower-case letter and keeps every other character |
| Php.ContainsAt | src/Api/OktaClient.php:148 | a needle found at any position makes strpos succeed |
| Php.DecodeKeepsPlainText | src/Api/OktaClient.php:166 | html_entity_decode leaves a text without `&` unchanged |
| Php.DecodeAmp | src/Api/OktaClient.php:166 | html_entity_decode turns `&amp;` into `&` and decodes the rest after it |
| Php.OMap.Put | src/Services/GroupService.php:68 | assigning `$a[$k] = $v` maps k to v, keeps every other entry, appends k to the key order only when it is new, and keeps the array well formed |
| Php.EmptyMap | src/Services/GroupService.php:65 | `[]` is a well-formed array with no keys |
| Php.PutOverwrites | src/Services/UserImportService.php:383-386 | assigning the same key twice gives the array of the second assignment, with that key once |
| Api.OktaClient.constructor | src/Api/OktaClient.php:51-55 | the base URL is stored without its trailing slashes and the API key as given |
| Api.OktaClient.BuildUrl | src/Api/OktaClient.php:146-152 | a URI that contains the base URL is used verbatim; any other is the base URL, one `/`, and the URI without leading slashes; the result always contains the base URL |
| Api.BuildUrlIdempotent | src/Api/OktaClient.php:146-152 | building a URL from a built URL changes nothing |
| Api.BuildUrlIgnoresLeadingSlash | src/Api/OktaClient.php:149 | `/api/v1/users` and `api/v1/users` give the same URL |
| Api.OktaClient.Request | src/Api/OktaClient.php:83-137 | the answer is the classification of the exchange at the built URL, with the headers the callback collected from every header line in order |
| Api.Classify | src/Api/OktaClient.php:118-136 | false on a curl error, an empty raw response, a body with `errorCode` or a falsy decoded body; otherwise the header table with the decoded body, which is then truthy |
| Api.FirstColon | src/Api/OktaClient.php:96 | `explode(':', $h, 2)` splits at the first colon: none exactly when the line has no colon, and no colon before the split |
| Api.HeadersOfCollectsAllValues | src/Api/OktaClient.php:94-101 | a header name is recorded exactly when some line with a colon carries it (trimmed and lower-cased), and its values are those lines' trimmed values in order |
| Api.HeaderCollector.constructor | src/Api/OktaClient.php:86 | the header table starts empty |
| Api.HeaderCollector.OnHeaderLine | src/Api/OktaClient.php:94-101 | the callback reports the whole line as consumed and records it as one step of the header table |
| Api.SkipSpaces | src/Api/OktaClient.php:165 | `\s*` consumes the longest run of PCRE white space from a position |
| Api.QuoteFrom | src/Api/OktaClient.php:165 | the lazy `(.*?)"` stops at the first `"`, with no newline before it |
| Api.RelAfter | src/Api/OktaClient.php:165 | a match after `>;` needs `rel="` somewhere in the value |
| Api.MatchFrom | src/Api/OktaClient.php:165 | a match of the pattern from a `<` needs `rel="` somewhere in the value |
| Api.MatchLinkFrom | src/Api/OktaClient.php:165 | the unanchored search finds a match only where `rel="` occurs |
| Api.WithoutRelNoMatch | src/Api/OktaClient.php:165 | a value with no `rel="` is dropped |
| Api.MatchAtStart | src/Api/OktaClient.php:165 | a value that starts `<url>;`, then white space, then `rel="name"` matches with exactly that url and name |
| Api.WellFormedEntryMatches | src/Api/OktaClient.php:165-167 | every entry `<url>;` + spaces + `rel="name"` + anything yields the pair (url, name) |
| Api.ParseLinkHeader | src/Api/OktaClient.php:161-171 | the loop builds the rel => url table of the values in order |
| Api.LinksOfKeys | src/Api/OktaClient.php:161-171 | a rel is in the table exactly when some value matches with that rel; an empty list gives an empty table |
| Api.LinksOfLastWins | src/Api/OktaClient.php:166-167 | the url kept for a rel is the decoded url of the last value with that rel |
| Groups.GroupsFrom | src/Services/GroupService.php:65-70 | the directory built from the body is a well-formed array |
| Groups.GroupsOf | src/Services/GroupService.php:57-71 | a failed request or a response without body gives the empty directory |
| Groups.GroupsFromKeys | src/Services/GroupService.php:66-68 | the directory has an entry exactly for the ids of the listed groups |
| Groups.GroupsFromLastNameWins | src/Services/GroupService.php:68 | an id maps to addslashes of the name of the last group with that id |
| Groups.GroupsFromEscaped | src/Services/GroupService.php:68 | every stored name is an escaped string: unescaping and escaping it gives it back |
| Groups.GroupsOfEscaped | src/Services/GroupService.php:57-71 | the same for whatever getGroups returns |
| Groups.GroupService.constructor | src/Services/GroupService.php:47-50 | the service keeps its client's request function and the page bound |
| Groups.GroupService.GetGroups | src/Services/GroupService.php:57-71 | the loop builds the directory of the groups response |
| Groups.FilterStep | src/Services/GroupService.php:88-95 | one group of the filter loop keeps the result well formed, and a raised error is final |
| Groups.Filtered | src/Services/GroupService.php:85-98 | a filter result that is not false is a well-formed array |
| Groups.FilteredNoneAbsorbs | src/Services/GroupService.php:93-95 | once matching raised an error the whole call returns false |
| Groups.FilteredFailsIffRaised | src/Services/GroupService.php:87-98 | the call returns false exactly when matching raised for some group |
| Groups.FilteredContents | src/Services/GroupService.php:87-96 | the result keeps exactly the ids whose unescaped name matched, each with its name re-escaped |
| Groups.FilteredMatchAllKeys | src/Services/GroupService.php:87-96 | when every name matches, the result keeps every id in the original order |
| Groups.FilteredMatchAllTable | src/Services/GroupService.php:87-96 | when every name matches and every name is escaped, the result is the directory itself |
| Groups.FilteredMatchNone | src/Services/GroupService.php:87-96 | when no name matches, the result is the empty array |
| Groups.GroupService.GetGroupsByRegex | src/Services/GroupService.php:80-99 | the loop computes the filter of getGroups' directory with `/regex/i` of the unescaped regex |
| Groups.GroupService.FilterGroup | src/Services/GroupService.php:88-95 | the body of the filter loop for one group |
| Groups.GroupsByRegexFailsIffRaised | src/Services/GroupService.php:80-99 | getGroupsByRegex returns false exactly when matching some group's name raised |
| Groups.GroupsByRegexIsSubTable | src/Services/GroupService.php:80-99 | a non-false result is a sub-map of getGroups: exactly the matching ids, with the same names |
| Groups.GroupsByRegexMatchAll | src/Services/GroupService.php:80-99 | a pattern that matches every name gives back getGroups' whole directory |
| Groups.PagesFuelPrefix | src/Services/GroupService.php:113-133 | allowing one more page only extends the collected list |
| Groups.LastPage | src/Services/GroupService.php:116-131 | a linked page without `next` ends the loop with its own body |
| Groups.TwoLinkedPages | src/Services/GroupService.php:113-133 | two pages linked by `next` give the first body followed by the second |
| Groups.UnlinkedOrEmptyPageGivesNothing | src/Services/GroupService.php:114-124 | a first page that failed, has no `link` header or has no body yields no users, its body discarded |
| Groups.GroupService.GetUsersInGroup | src/Services/GroupService.php:108-136 | the paging loop returns the pages of the group's member URI in request order |
| Repository.FirstId | src/Repository/UserRepository.php:80-94 | `LIMIT 1`: the id of the first row in table order that satisfies the condition, none exactly when no row does |
| Repository.EmailLookup | src/Repository/UserRepository.php:74-95 | an empty e-mail finds nothing; a found id is the first account whose e-mails include the address exactly and whose auth type is allowed; none means no such account |
| Repository.WithSupervisor | src/Repository/UserRepository.php:105-112 | only the supervisor of the rows with that id changes |
| Repository.WithActive | src/Services/UserImportService.php:548-554 | only `is_active` of the rows with that id changes |
| Repository.WithProfile | src/Services/UserImportService.php:500-506 | a profile write changes only the rows of that account and keeps every id |
| Repository.EmailLookupIgnoresSupervisor | src/Repository/UserRepository.php:74-112 | setting a supervisor never changes what an e-mail lookup finds |
| Repository.FirstIdAgrees | src/Repository/UserRepository.php:80-94 | two tables with the same ids that agree on the condition give the same first match |
| Repository.UserStore.constructor | src/Repository/DatabaseInterface.php:1-80 | the store starts with the given rows, auto-increment value and an empty write log |
| Repository.UserStore.UpdateSupervisor | src/Repository/UserRepository.php:106-110 | `updateOrDie` on `users_id_supervisor` sets that field of that row and logs the write |
| Repository.UserStore.UpdateActive | src/Services/UserImportService.php:548-554 | `updateOrDie` on `is_active` sets that field of that row and logs the write |
| Repository.UserStore.Add | src/Services/UserImportService.php:469-489 | a new account gets the next auto-increment id, is appended, and is logged |
| Repository.UserStore.WriteProfile | src/Services/UserImportService.php:500-506 | Oidc::addUserData writes through the host writer and is logged |
| Repository.UserRepository.constructor | src/Repository/UserRepository.php:56-61 | the allowed auth types default to `[3, 4]` |
| Repository.UserRepository.FindUserIdByEmail | src/Repository/UserRepository.php:74-95 | the lookup is the e-mail lookup over the current table and auth types |
| Repository.UserRepository.UpdateSupervisor | src/Repository/UserRepository.php:105-112 | sets only that row's supervisor, logs one write and reports success |
| Repository.WithSupervisorIdempotent | src/Repository/UserRepository.php:105-112 | repeating the supervisor update leaves the same table |
| Repository.WithActiveChangesOneRow | src/Services/UserImportService.php:548-554 | with unique ids the activity update changes exactly one row |
| Repository.WithSupervisorChangesOneRow | src/Repository/UserRepository.php:105-112 | with unique ids the supervisor update changes exactly one row |
| ImportRules.ApiClaimsAreTheTable | src/Services/UserImportService.php:53-65 | the claim order lists exactly the keys of `API_MAPPINGS` |
| ImportRules.OidcClaimsAreTheTable | src/Services/UserImportService.php:70-78 | the claim order lists exactly the keys of `OIDC_TRANSLATION` |
| ImportRules.UserObjectFields | src/Services/UserImportService.php:395-406 | the user object has claim c exactly when the Okta field `API_MAPPINGS[c]` is set, with that field's value |
| ImportRules.UserObjectIgnoresUnmappedFields | src/Services/UserImportService.php:395-406 | a field no claim maps to does not affect the user object |
| ImportRules.UsernameClaimsShareLogin | src/Services/UserImportService.php:53-65 | `preferred_username` and `username` both carry the login |
| ImportRules.NormalizeStepAccepted | src/Services/UserImportService.php:255-268 | a kept user had the field replaced by its stripped, non-empty text when normalising is on, is unchanged otherwise, and matches the filter when filtering is on |
| ImportRules.NormalizeStepRejects | src/Services/UserImportService.php:255-268 | a key rejects the user exactly when the normalised value is empty or the filter does not match the (normalised) value |
| ImportRules.TransformWithoutOptions | src/Services/UserImportService.php:249-268 | with no normalise or filter option on, the user passes unchanged |
| ImportRules.TransformFrame | src/Services/UserImportService.php:249-268 | a field no mapped key points to is never changed |
| ImportRules.TransformStopsAtRejection | src/Services/UserImportService.php:249-268 | a rejection at any key rejects the user, whatever the later keys say |
| ImportRules.ColumnLookup | src/Services/UserImportService.php:419-425 | the duplicate-column query gives the id of the first row that matches, and nothing exactly when no row matches |
| ImportRules.NameLookup | src/Services/UserImportService.php:429-438 | the name query gives the id of the first external or LDAP row with that name, and nothing exactly when there is none |
| ImportRules.FindExisting | src/Services/UserImportService.php:417-442 | a non-zero id from the duplicate column wins; when that query finds nothing or the id 0, the name query's first row is taken, else the falsy result stays (0, or not found); a lookup error happens exactly when the duplicate column is unknown, its value cannot be escaped, or the name query runs on a login that cannot be escaped; a found id is a row of the table |
| ImportRules.LookupAgreesWithDuplicateCheck | src/Services/UserImportService.php:276-285 | when the duplicate option names a mapping, the lookup reads the field the duplicate check required, and that field is set |
| ImportRules.MissingDuplicateOptionIsFatal | src/Services/UserImportService.php:419-423 | without a `duplicate` option the lookup escapes a null value, which ends the run |
| ImportRules.ManagerOf | src/Services/UserImportService.php:333-344 | no `managerId` gives (null, null); otherwise the address is returned and the id is exactly the e-mail lookup of that address |
| ImportRules.ManagerRecordIgnored | src/Services/UserImportService.php:333-344 | an embedded `manager` record does not affect the result |
| ImportFlow.LinkManager | src/Services/UserImportService.php:300-305 | a found manager is written and logged; an unknown address is remembered for the user; with neither nothing changes |
| ImportFlow.CompletedFields | src/Services/UserImportService.php:492-498 | the completed object keeps the built fields and adds only the groups under a non-empty group key and the found supervisor |
| ImportFlow.OidcPayloadFields | src/Services/UserImportService.php:500-506 | the payload is every scalar field of the object plus the group field, and no other list |
| ImportFlow.NewAccount | src/Services/UserImportService.php:469-489 | a new account is an active external account named after the unescaped login, without e-mails or supervisor |
| ImportFlow.Handle | src/Services/UserImportService.php:457-517 | a placement keeps the pending table well formed |
| ImportFlow.PlaceAccepted | src/Services/UserImportService.php:284-308 | placing an accepted user keeps the pending table well formed |
| ImportFlow.CreateOrUpdate | src/Services/UserImportService.php:244-309 | createOrUpdateUser keeps the pending table well formed |
| ImportFlow.HandleKeepsState | src/Services/UserImportService.php:457-517 | a placement keeps ids unique and below the auto-increment value |
| ImportFlow.RejectionChangesNothing | src/Services/UserImportService.php:249-282 | a filtered-out user, or one whose lookup fails, leaves the table, the log and the pending table unchanged |
| ImportFlow.LinkOnlyWhenFoundWithoutFullImport | src/Services/UserImportService.php:287-308 | outside a full import a found user gives `[obj+id, null]`; only its manager link can be written |
| ImportFlow.HandleCreates | src/Services/UserImportService.php:469-517 | a new account gets the next id, earlier rows stay as they were, and the user is listed and reported with that id |
| ImportFlow.NewUserIsCreated | src/Services/UserImportService.php:244-309 | a user who passes, has no account and is admitted by the rules is created with the next id and returned as `[obj+id, obj+id]` |
| ImportFlow.LookupErrorFails | src/Services/UserImportService.php:285 | an error in the existing-user lookup ends the run and writes nothing |
| ImportFlow.RefusedProvisioningIsNull | src/Services/UserImportService.php:469-489 | a user without an account (or with the falsy id 0) whom the rules refuse gives `[null, null]` and writes nothing |
| ImportFlow.HandleUpdates | src/Services/UserImportService.php:466-516 | updating an existing account returns `[obj+id, obj+id]` for the completed object, creates no row, writes the profile to that id only and links the manager |
| ImportFlow.FullImportUpdatesExisting | src/Services/UserImportService.php:287-296 | in a full import a found account is updated as HandleUpdates states |
| ImportFlow.PlacedUsersCarryTheirId | src/Services/UserImportService.php:287-308 | a listed user carries its GLPI id, a reported user is the listed one, and `[null, null]` is the only form without a listed user |
| ImportFlow.PendingStepEffect | src/Services/UserImportService.php:358-372 | an unknown address changes nothing; a known one sets that user's supervisor to the found account, changes no other field and logs exactly that write |
| ImportFlow.PendingStep | src/Services/UserImportService.php:358-372 | one retry keeps the id counter, the pending table and the row count |
| ImportFlow.ApplyPending | src/Services/UserImportService.php:358-372 | the retry loop keeps the number of rows and the auto-increment value |
| ImportFlow.ResolvePending | src/Services/UserImportService.php:352-375 | after the second pass nothing is pending |
| ImportFlow.LookupIgnoresSupervisors | src/Services/UserImportService.php:358-372 | supervisor writes made during the pass do not change what later lookups find |
| ImportFlow.ApplyPendingShape | src/Services/UserImportService.php:358-372 | the second pass changes only supervisors and logs only supervisor writes |
| ImportFlow.ApplyPendingLinks | src/Services/UserImportService.php:358-372 | a pending user whose manager address is found gets that manager; users not pending are untouched |
| ImportFlow.NothingPendingWritesNothing | src/Services/UserImportService.php:352-375 | with nothing pending the pass writes nothing |
| ImportFlow.ResolvePendingEffect | src/Services/UserImportService.php:352-375 | the whole effect of resolvePendingManagerAssignments: the found managers are linked, no other field or row changes, and only supervisor writes are logged |
| ImportFlow.SweepTypes | src/Services/UserImportService.php:527-536 | the sweep covers external accounts, and LDAP ones exactly when `ldap_update` is on |
| ImportFlow.ListedIds | src/Services/UserImportService.php:544-546 | the listed ids are the `id` fields of the listed users, in order |
| ImportFlow.Sweep | src/Services/UserImportService.php:548-554 | every row takes its swept state |
| ImportFlow.Deactivate | src/Services/UserImportService.php:525-555 | the sweep keeps the number of rows, the auto-increment value and the pending table |
| ImportFlow.SweepActiveIffListed | src/Services/UserImportService.php:525-555 | a covered account is active afterwards exactly when some listed user has its id; only `is_active` can change; other accounts are untouched |
| ImportFlow.SweepWritesExactlyChanges | src/Services/UserImportService.php:548-554 | every sweep write sets the new state of a row that changed, and every changed row is written |
| ImportFlow.SweepIdempotent | src/Services/UserImportService.php:525-555 | a second sweep with the same list changes nothing and writes nothing |
| ImportFlow.ContentFields | src/Services/UserImportService.php:183-193 | a new entry holds the profile, the Okta id, the one group, and the manager record only when present |
| ImportFlow.CollectValid | src/Services/UserImportService.php:171-201 | the user list is a well-formed array |
| ImportFlow.Batch | src/Services/UserImportService.php:182 | the memberships of one group are its members in order, labelled with its name |
| ImportFlow.CollectKeys | src/Services/UserImportService.php:171-201 | the list has one entry exactly for each Okta id some group lists; groups without members add nothing |
| ImportFlow.CollectGroups | src/Services/UserImportService.php:183-195 | the `group` entry of a user names every group that listed it, in group order |
| ImportFlow.CollectEntry | src/Services/UserImportService.php:182-197 | a user's entry is the one built at its first membership, with `group` listing all its groups |
| ImportFlow.PlaceNext | src/Services/UserImportService.php:135-146 | one iteration keeps the pending table well formed, and after an error nothing changes |
| ImportFlow.PlaceAll | src/Services/UserImportService.php:135-146 | the loop keeps the pending table well formed |
| ImportFlow.FailureIsFinal | src/Services/UserImportService.php:135-146 | after an error the remaining users change nothing |
| ImportFlow.ImportedAreListed | src/Services/UserImportService.php:135-146 | every reported user is also listed, so the sweep never deactivates a user the run reported |
| ImportFlow.ListValues | src/Services/UserImportService.php:135 | the loop visits the list's users in the list's order |
| ImportFlow.ImportSingle | src/Services/UserImportService.php:213-233 | importing one user keeps the pending table well formed |
| ImportFlow.ImportSingleResult | src/Services/UserImportService.php:213-233 | a failed request or missing body gives `[]` and writes nothing; otherwise the state is createOrUpdateUser's, an error ends the run, a reported user is returned alone with its id, and a rejected or only listed user gives `[]` |
| ImportFlow.GroupRun | src/Services/UserImportService.php:130-153 | a group run that ends normally leaves nothing pending |
| ImportFlow.SingleRun | src/Services/UserImportService.php:155-159 | a single-user run that ends normally leaves nothing pending |
| ImportFlow.ImportRun | src/Services/UserImportService.php:123-162 | a run that ends normally leaves nothing pending |
| ImportFlow.PlaceAllKeepsState | src/Services/UserImportService.php:135-146 | the placement loop keeps ids unique and below the auto-increment value |
| ImportFlow.CreateOrUpdateKeepsState | src/Services/UserImportService.php:244-309 | createOrUpdateUser keeps ids unique and below the auto-increment value |
| ImportFlow.GroupRunOutcome | src/Services/UserImportService.php:123-162 | a group run that ends normally leaves nothing pending, and with `deactivate` on a covered account is active exactly when the run listed it |
| Import.CollectMember | src/Services/UserImportService.php:182-197 | the body of the inner collection loop is one membership step |
| Import.CollectGroup | src/Services/UserImportService.php:182-197 | the inner loop adds the group's members in order |
| Import.CollectNext | src/Services/UserImportService.php:182-197 | one pass of the inner loop adds one membership |
| Import.UserImportService.constructor | src/Services/UserImportService.php:100-112 | the service keeps its collaborators and starts with nothing pending |
| Import.UserImportService.GetOidcMappings | src/Services/UserImportService.php:316-320 | the mappings are the first row of the mapping table, or none |
| Import.UserImportService.BuildUserObject | src/Services/UserImportService.php:395-406 | the loop builds the user object of the user |
| Import.UserImportService.NormalizeAndFilter | src/Services/UserImportService.php:249-268 | the loop computes the normalise/filter result over `OIDC_TRANSLATION` in order, returning at the first rejection |
| Import.UserImportService.ResolveManagerId | src/Services/UserImportService.php:333-344 | the manager reference is the reference ManagerOf describes on the current table |
| Import.UserImportService.AddPendingManagerAssignment | src/Services/UserImportService.php:383-386 | the address is recorded for the user, replacing an earlier one |
| Import.UserImportService.HandleUserCreationOrUpdate | src/Services/UserImportService.php:457-517 | the method's result and new state are those Handle describes |
| Import.UserImportService.LinkManagerOf | src/Services/UserImportService.php:508-513 | the new state is the one LinkManager describes |
| Import.UserImportService.CreateOrUpdateUser | src/Services/UserImportService.php:244-309 | the method's result and new state are those CreateOrUpdate describes |
| Import.UserImportService.PlaceAcceptedUser | src/Services/UserImportService.php:284-308 | the method's result and new state are those PlaceAccepted describes |
| Import.UserImportService.PlaceFound | src/Services/UserImportService.php:287-308 | a matched account is updated in a full import and otherwise only linked to its manager |
| Import.UserImportService.ResolvePendingManagerAssignments | src/Services/UserImportService.php:352-375 | the new state is the one ResolvePending describes |
| Import.UserImportService.ResolveOne | src/Services/UserImportService.php:358-372 | one retry has the effect PendingStep describes |
| Import.UserImportService.DeactivateUnlistedUsers | src/Services/UserImportService.php:525-555 | the new state is the one Deactivate describes |
| Import.UserImportService.SweepRow | src/Services/UserImportService.php:548-554 | one row takes its swept state and only a changed row is written |
| Import.UserImportService.CollectUsersFromGroups | src/Services/UserImportService.php:171-201 | the user list is the one built from the memberships of the groups, in order |
| Import.UserImportService.ImportSingleUser | src/Services/UserImportService.php:213-233 | the method's result and new state are those ImportSingle describes |
| Import.UserImportService.PlaceOne | src/Services/UserImportService.php:136-145 | one iteration of the loop has the effect PlaceNext describes |
| Import.UserImportService.PlaceUsers | src/Services/UserImportService.php:135-146 | the loop has the effect PlaceAll describes and stops at the first error |
| Import.UserImportService.ImportFromGroups | src/Services/UserImportService.php:130-153 | the group path has the effect GroupRun describes on the collected list |
| Import.UserImportService.ImportUsers | src/Services/UserImportService.php:123-162 | the whole run has the effect ImportRun describes: it clears the pending table, then takes the group path or the single-user path |
| Import.UserImportService.FetchUserById | src/Services/UserImportService.php:564-568 | the body of the user record with its manager expanded, or null when the request failed |

## Left out

- The curl transport, the HTTP method and body of `request()`, and the request headers are not modelled. The transport is a parameter that hands back the finished exchange.
- `Session::addMessageAfterRedirect`, the logger and the `echo` progress output have no effect on the model.
- `OktaClient::fromConfig` and its sodium decryption of the API key are not modelled. They are configuration and cryptography.
- `getBaseUrl` returns the `baseUrl` field. The model reads that field directly, and the constructor's contract states its value.
- The PCRE engine used by normalise/filter and by the group filter is a parameter (`Host.strip`, `Host.matches`, `matcher`). For the group filter, a `false` from `@preg_match` counts as `NoMatch`, and only a thrown exception is `Raised`. normalise/filter have no error outcome: a `null` from `preg_replace` fails the loose `== ''` test, which the model shows as `Host.strip` returning the empty string.
- The one pattern the core fixes, the Link-header pattern, is written out as a matcher.
- `html_entity_decode` decodes `&amp;`, `&lt;`, `&gt;`, `&quot;`, `&#039;` and `&#39;`. Other named and numeric entities are kept verbatim.
- The GLPI rule engine (`RuleRightCollection::processAllRules`), `User::add` and `Oidc::addUserData` are host operations.
  - The rules' verdict is `Host.admits`.
  - The store allocates the new id by auto-increment.
  - The profile write is `Host.writeProfile`, which keeps the row's id.
  - The rules' other effects on the new account are not modelled.
- SQL text and MySQL collation are not modelled.
  - Lookups compare strings exactly.
  - A query without `ORDER BY` returns rows in table order.
  - The escaping of the e-mail before the query is not modelled; the lookup compares the unescaped address.
- Repository.UserStore.constructor: the store stands for the GLPI database adapter (DatabaseInterface and GlpiDatabaseAdapter), which is not part of this model beyond the writes the core issues.
- Configuration values are strings. A `== 1` test is modelled as equality with `"1"`. PHP's loose comparison of other spellings (`"01"`, `" 1"`) is not modelled.
- `is_active` is a boolean: GLPI's 0/1 column.
- An array printed as a string becomes the text `"Array"`. Booleans and arrays used as ids or array keys are not modelled beyond PHP's text conversion in `TextOf`.
- Key order inside a user profile (a PHP array) is not modelled: profiles are maps. The order of the user list, the group directory and the pending table is modelled.
- Groups.GroupService.GetUsersInGroup: the loop follows at most `maxPages` pages, because a `next` link that cycles would make the PHP loop run forever. Within that bound the model follows the PHP loop exactly.
- ImportFlow.Handle: its own contract only keeps the pending table well formed. Its outcomes are stated by HandleCreates (a new account), HandleUpdates (an existing account) and RefusedProvisioningIsNull (refused provisioning).
- ImportFlow.PlaceAccepted: its own contract only keeps the pending table well formed. Its outcomes are stated by LookupErrorFails, RefusedProvisioningIsNull, NewUserIsCreated, FullImportUpdatesExisting and LinkOnlyWhenFoundWithoutFullImport.
- ImportFlow.CreateOrUpdate: its own contract only keeps the pending table well formed. Its outcomes are stated by RejectionChangesNothing (filtered out) and by the lemmas of each PlaceAccepted outcome above, and PlacedUsersCarryTheirId holds for every placement.
- A run-ending error from the existing-user lookup is modelled as a result of `None`. The writes made before it stay in the table, as they would in PHP.
  - Such errors are the TypeError of escaping a null value and an SQL error on an unknown column.
- A duplicate-column match with the GLPI id 0 is falsy. As in PHP's `if (!$ID)`, the name lookup is then tried, and a final id of 0 is treated as no account, as `!$existingId` does.
- JSON numbers are integers. `json_decode` floats, their falsiness (`0.0`) and their text conversion are not modelled.
- `Items` gives no elements for a JSON object body. PHP's `foreach` (src/Services/GroupService.php:66) and `array_merge` (src/Services/GroupService.php:126) would walk the object's values; the model handles only list bodies there.
- Strings are sequences of Unicode characters, not bytes. The header callback returns `strlen($header)`, a byte count (src/Api/OktaClient.php:94-101), but `OnHeaderLine` returns the number of characters. `strtolower`, `trim` and `addslashes` act on bytes in PHP and on characters here; they agree on ASCII text.
- ParseLinkHeader is a module-level method rather than a method of `OktaClient`: it reads no field of the client.
- The legacy copy in `inc/`, the configuration pages, the profile and permission code, and plugin registration are not part of this model.
