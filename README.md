# dns3 decision procedures, modelled and proved in Dafny

dns3 is a web application for managing BIND zone files. It stores zones in a
MySQL database, lets users edit DNS records, validates zones with
named-checkzone, and imports existing zone files. This project models the
parts of it that make decisions, and proves what those decisions guarantee:

- **DNS name and record validation.** `DnsValidator` covers the label, name,
  owner and per-type value checks of `includes/lib/DnsValidator.php`.
  `RecordApi` covers `validateRecordByType` and the create and update field
  checks of `api/dns_api.php`.
- **The include graph.**
  - `ZoneGraph` models the breadth-first search of `list_zones_by_domain`.
    It also models the bounded upward walks of `get_domain_for_zone` and
    `list_domains`.
  - `ValidationJobs` models the recursive `$INCLUDE` flattening and the
    per-job status decision of the validation queue
    (`jobs/process_validations.php`).
  - `ZoneCombobox` and `ZoneComboboxShared` model the zone ordering,
    deduplication, ancestor search, client-side filtering and error messages
    of the zone pickers.
- **The BIND import script.** `BindImport` models origin derivation, SOA
  defaults, rdata-to-record mapping, schema-filtered INSERT construction and
  the statistics counters of `ZoneImporter`.
- **Authorisation.**
  - `Permissions` holds the pieces both ACL tables share: the permission
    hierarchy, user-name normalisation, table lookups and the
    maximum-over-entries loop.
  - `Acl` and `ZoneAcl` model the two ACL tables: the permission checks and
    the upsert of `addEntry`.
  - `AuthModel` models role assignment from directory mappings at login and
    the role synchronisation.
- **Helpers.**
  - `ApiToken` models the API token lifecycle.
  - `Logger` models level filtering, secret redaction, line formatting and
    the file/`error_log` choice.
  - `DnsRecords` models `escapeHtml` and the status toggle.

Database tables the code only reads are sequences of row datatypes, passed in.
Tables the code writes are fields of a class whose methods update them: ACL
entries, user roles, API tokens, the importer's counters and the log sinks.
Foreign functions are parameters:

- IP-address classification;
- SHA-256;
- random bytes;
- the clock;
- `DateTime` parsing;
- `json_encode`;
- dnspython's parse;
- named-checkzone;
- the database or API calls of the importer.

PHP strings are byte strings, so each Dafny `char` stands for one byte and
"ASCII" means a code below 128.

The importer has no `$INCLUDE` walker and no reconciliation step, and the
validation queue stores exactly what the loop stores.

## Model

| member | source | states |
|---|---|---|
| Permissions.Level | includes/models/Acl.php:22-26 | a permission grants at most level 3, and a positive level exactly when it is read, write or admin |
| Permissions.RequiredLevel | includes/models/Acl.php:173 | a required permission asks for its own level, and an unknown name asks for read (1) |
| Permissions.HierarchyOrdered | includes/models/Acl.php:22-26 | admin > write > read > 0, and required and granted levels agree on the three names |
| Permissions.NormalizeUsername | includes/models/Acl.php:38-43 | the normalised name has no leading or trailing trim character and no upper-case letter |
| Permissions.NormalizeIdempotent | includes/models/Acl.php:38-43 | normalising an already normalised name changes nothing |
| Permissions.NormalizeSome | includes/models/AuthModel.php:28-33 | for a present name, normalising is lower(trim(name)), as in both models |
| Permissions.NormalizeIgnoresCaseAndSpace | includes/models/Acl.php:38-43 | names that differ only in letter case or surrounding white space normalise alike |
| Permissions.NormalizeLower | includes/models/Acl.php:38-43 | a name and its lower-cased form normalise alike |
| Permissions.UserIdByUsername | includes/models/Acl.php:539-549 | the id of a user whose lower-cased name equals the given one, none exactly when no user has it |
| Permissions.UserById | includes/models/ZoneAcl.php:84-91 | a user row with the id, none exactly when no row has it |
| Permissions.RoleByName | includes/models/Acl.php:465-467 | a role row with the name, none exactly when no row has it |
| Permissions.GroupMatchesIsSubstring | includes/models/Acl.php:231-243 | the equality test is subsumed: a group matches iff it contains the identifier ignoring case |
| Permissions.MatchGroups | includes/models/Acl.php:233-243 | the foreach that breaks at the first hit answers whether some group equals or contains the identifier, ignoring case |
| Permissions.MaxGrant | includes/models/Acl.php:208-263 | the maximum is reached by some entry (or is 0) and bounds every entry's grant |
| Permissions.BestIndex | includes/models/ZoneAcl.php:285-322 | the index of the first entry of maximal positive grant, none exactly when every grant is 0 |
| Permissions.MaxGrantSuperset | includes/models/Acl.php:208-263 | entries that grant at least as much as before can only raise the maximum |
| Acl.AllowedIff | includes/models/Acl.php:170-263 | access iff the normalised name is non-empty, the zone id is set, and some entry of the zone matches the user with a level at least the required one |
| Acl.MoreEntriesNeverRevoke | includes/models/Acl.php:208-263 | adding entries to the table never turns an allowed request into a refused one |
| Acl.LegacyOnlyWithoutSubjectMatch | includes/models/Acl.php:248-256 | once the new-schema subject matches, the legacy user_id and role_id columns make no difference |
| Acl.UserEntryMatchesNormalized | includes/models/Acl.php:217-222 | a 'user' entry matches every spelling of the name that agrees after trimming and lower-casing |
| Acl.ResolveNumericUser | includes/models/Acl.php:433-443 | a numeric 'user' identifier whose (int) cast names an existing user is stored as that user's normalised name, with the id |
| Acl.ResolveFormsOfOne | includes/models/Acl.php:433-443 | "1", "1.0" and "1e0" all resolve to user 1 when that user exists |
| Acl.FindKey | includes/models/Acl.php:477-482 | a row with the same zone, type and case-insensitively equal identifier, none exactly when no row has that key |
| Acl.AddEntryRejects | includes/models/Acl.php:414-474 | addEntry fails and leaves the table unchanged exactly for a bad subject type, a bad permission, or a role name that does not exist |
| Acl.AddEntryUpserts | includes/models/Acl.php:477-516 | on success, an existing keyed row alone gets the new permission and its id is returned; otherwise one row is appended under the next id |
| Acl.AddEntryKeepsKeysUnique | includes/models/Acl.php:477-516 | if no two rows shared an upsert key before addEntry, none do after |
| Acl.AclStore.IsAllowedForZone | includes/models/Acl.php:170-263 | the loop keeping the highest matching level answers exactly the isAllowedForZone decision, without changing the table |
| Acl.AclStore.MatchEntry | includes/models/Acl.php:210-256 | one pass of the loop matches exactly when the new-schema subject or a legacy column matches |
| Acl.AclStore.AddEntry | includes/models/Acl.php:412-516 | the table and returned id after addEntry are those of the upsert result |
| ZoneAcl.AllowedIffPermission | includes/models/ZoneAcl.php:190-322 | isAllowed(u, z, r) holds iff getPermission(u, z) is non-null with a level at least that of r |
| ZoneAcl.PermissionIsFirstHighest | includes/models/ZoneAcl.php:267-322 | getPermission is null iff a guard fails or nothing matches with a known permission; otherwise it is the permission of the first matching entry of highest level |
| ZoneAcl.UserEntryMatchesById | includes/models/ZoneAcl.php:216-221 | a 'user' entry holding the decimal form of the user's id matches that user |
| ZoneAcl.UserNameEntryNeverMatches | includes/models/ZoneAcl.php:216-221 | a 'user' entry whose identifier casts to 0, such as a user name, matches no user the guards admit |
| ZoneAcl.MatchEntry | includes/models/ZoneAcl.php:215-245 | the switch of one pass matches by integer user id, role name, or AD group equality or substring |
| ZoneAcl.FindKey | includes/models/ZoneAcl.php:103-108 | a row with exactly the same zone, type and identifier, none exactly when no row has it |
| ZoneAcl.AddEntryRejects | includes/models/ZoneAcl.php:69-100 | addEntry fails and leaves the table unchanged exactly for a bad type or permission, an unknown user id, or an unknown role name |
| ZoneAcl.AddEntryUpserts | includes/models/ZoneAcl.php:103-133 | an accepted entry sets the permission of the row with the same key and returns its id, leaving every other row alone; without such a row it appends one under the next id |
| ZoneAcl.AddEntryKeepsKeysUnique | includes/models/ZoneAcl.php:103-133 | addEntry keeps (zone, type, identifier) keys unique |
| ZoneAcl.ZoneAclStore.IsAllowed | includes/models/ZoneAcl.php:190-252 | the loop answers exactly the isAllowed decision and leaves the table alone |
| ZoneAcl.ZoneAclStore.GetPermission | includes/models/ZoneAcl.php:267-322 | the loop's strict '>' update returns exactly the first highest matching permission |
| ZoneAcl.ZoneAclStore.AddEntry | includes/models/ZoneAcl.php:67-133 | the table and returned id after addEntry are those of the upsert result |
| AuthModel.UserIdOfNormalized | includes/models/AuthModel.php:138-150 | looking up a name that is already normalised finds the same user as looking up the raw name |
| AuthModel.RoleIdsFrom | includes/models/AuthModel.php:235-258 | the matched role ids have no duplicates, and each comes from a matching mapping |
| AuthModel.RoleIdsPrefixStable | includes/models/AuthModel.php:256-258 | first-match order: the ids matched by the first k mappings come first, whatever later mappings add |
| AuthModel.DnFallbackOnlyForLdap | includes/models/AuthModel.php:250-254 | without LDAP and a non-empty user DN, only equality with a comparable value can match |
| AuthModel.MatchValues | includes/models/AuthModel.php:240-246 | the inner foreach answers whether some comparable value equals the mapping's DN or group, ignoring case |
| AuthModel.GetRoleIdsFromMappings | includes/models/AuthModel.php:227-266 | the nested loops return the matched role ids, duplicate-free, in first-match order |
| AuthModel.LoginAssignsMatched | includes/models/AuthModel.php:169-211 | an empty name or an unknown user applies nothing; otherwise every matched role is assigned, reported once, and no other assignment changes |
| AuthModel.UserRoleStore.ApplyAuthMappingsAtLogin | includes/models/AuthModel.php:169-211 | the assignments and applied ids after login are the login result |
| AuthModel.UserRoleStore.AssignRoles | includes/models/AuthModel.php:194-209 | INSERT IGNORE of each role adds exactly the user's pairs for those roles |
| AuthModel.CurrentRoleIds | includes/models/AuthModel.php:314-316 | the user's current role ids are exactly the role ids of the user's assignments |
| AuthModel.SyncEffect | includes/models/AuthModel.php:299-336 | after a successful sync every matched role is assigned; an assignment disappears only if it is the user's, mapping-derived and unmatched; only matched roles are added |
| AuthModel.SyncKeepsManualRoles | includes/models/AuthModel.php:288-334 | roles that no mapping of the source hands out, such as manual ones, survive every sync |
| AuthModel.UserRoleStore.SyncUserRolesWithMappings | includes/models/AuthModel.php:299-336 | the assignments and success flag after sync are the sync result; an empty or unknown user gives false |
| AuthModel.UserRoleStore.AddMissingRoles | includes/models/AuthModel.php:319-326 | the first foreach adds exactly the matched roles the user lacked |
| AuthModel.UserRoleStore.RemoveStaleRoles | includes/models/AuthModel.php:329-334 | the second foreach removes exactly the user's rows that a mapping hands out and the login did not match |
| DnsValidator.ValidateLabel | includes/lib/DnsValidator.php:27-69 | a label is valid iff it is 1 to 63 letters, digits and hyphens and neither starts nor ends with a hyphen (leading digits allowed) |
| DnsValidator.LabelErrorOrder | includes/lib/DnsValidator.php:29-66 | a label failing several checks reports the earliest: empty, too long, non-ASCII, space, bad character, leading hyphen, trailing hyphen |
| DnsValidator.TrailingNewlineLabelAccepted | includes/lib/DnsValidator.php:54-56 | as written, "abc\n" passes validateLabel although it is not a host label |
| DnsValidator.AsWrittenAgreesWithoutTrailingNewline | includes/lib/DnsValidator.php:54-56 | the code as written and the intended check agree on every label not ending in a newline |
| DnsValidator.FirstLabelFailure | includes/lib/DnsValidator.php:105-110 | the foreach returns valid iff every label is a host label, else the error of the first failing label |
| DnsValidator.ValidateName | includes/lib/DnsValidator.php:78-118 | valid iff, after removing one trailing dot, the name is 1 to 253 characters of dot-separated host labels, and a trailing dot is allowed when present (corrected reading, see Findings) |
| DnsValidator.StripTrailingDot | includes/lib/DnsValidator.php:85-89 | at most one trailing dot is removed, and nothing else changes |
| DnsValidator.TrailingDotCheckedLast | includes/lib/DnsValidator.php:113-115 | with allowTrailingDot false, a trailing dot is reported only once every label has passed |
| DnsValidator.EmptyLabelRejected | includes/lib/DnsValidator.php:101-110 | an empty label anywhere ("example..com", ".example.com") rejects the name |
| DnsValidator.HostNameIsAsciiWithoutSpaces | includes/lib/DnsValidator.php:138-153 | every valid host name is ASCII without spaces, so the owner's extra checks never reject a valid name |
| DnsValidator.ValidateOwner | includes/lib/DnsValidator.php:127-154 | valid iff the owner is "@" or a host name with a trailing dot allowed; an empty owner gets its own error (corrected reading, see Findings) |
| DnsValidator.ValidateA | includes/lib/DnsValidator.php:162-172 | valid iff non-empty and an IPv4 address |
| DnsValidator.ValidateAaaa | includes/lib/DnsValidator.php:180-190 | valid iff non-empty and an IPv6 address |
| DnsValidator.ValidateMx | includes/lib/DnsValidator.php:199-218 | valid iff the target is non-empty, not an IP, a valid name, and any priority is numeric within 0..65535 (corrected reading, see Findings) |
| DnsValidator.ValidateCname | includes/lib/DnsValidator.php:226-238 | valid iff the target is non-empty, not an IP, and a valid name (corrected reading, see Findings) |
| DnsValidator.ValidateTxt | includes/lib/DnsValidator.php:246-268 | valid iff non-empty, ASCII-only and at most 65535 characters |
| DnsValidator.ValidateRecord | includes/lib/DnsValidator.php:279-307 | the owner is checked first; A, AAAA, MX, CNAME and TXT (any case) dispatch to their check; any other type is "Unsupported record type" (corrected reading, see Findings) |
| RecordApi.ValidateRecordByType | api/dns_api.php:74-150 | a blank name is reported first; a listed type needs its dedicated field or 'value'; valid iff those hold and the semantic check passes |
| RecordApi.UnknownTypeNeedsOnlyName | api/dns_api.php:85-101 | a type outside the list is accepted iff its name is present and non-blank |
| RecordApi.DedicatedFieldTakesPrecedence | api/dns_api.php:105-111 | when address_ipv4 is set, it alone decides an A record, even when blank and 'value' is good |
| RecordApi.HostnamePatternLanguage | api/dns_api.php:127 | the hostname pattern, read as intended, accepts exactly strings that start and end alphanumeric and hold only alphanumerics, hyphens and dots |
| RecordApi.TrailingNewlineTargetAccepted | api/dns_api.php:127 | as written, the pattern accepts "www\n", which is not a hostname |
| RecordApi.FullyQualifiedTargetRejected | api/dns_api.php:120-139 | a CNAME or PTR target ending in '.' is rejected |
| RecordApi.TtlAcceptableMeaning | api/dns_api.php:331-343 | a TTL passes iff it is absent, null, '' or a numeric value whose integer part is positive |
| RecordApi.CommonChecks | api/dns_api.php:331-372 | the checks pass iff the TTL is acceptable, requester and ticket_ref hold at most 255 characters, and a non-empty expires_at parses; on success the TTL is normalised and the field names are kept |
| RecordApi.WithoutLastSeen | api/dns_api.php:299 | the client-supplied last_seen is removed and every other field is kept |
| RecordApi.CreateChecks | api/dns_api.php:301-372 | a create without zone_file_id fails with that error; a successful one has a record type among A, AAAA, CNAME, PTR, TXT that passes the type checks, an acceptable TTL and no last_seen (corrected reading, see Findings) |
| RecordApi.UpdateChecks | api/dns_api.php:394-470 | a non-positive id fails; a successful update has an acceptable TTL, no last_seen, and passes the type checks whenever record_type is supplied (corrected reading, see Findings) |
| ZoneGraph.CollectZoneTree | api/dns_api.php:717-741 | the BFS returns the start zone first, then every zone reachable along include edges and nothing else, each once, even with cycles |
| ZoneGraph.EnqueueChildren | api/dns_api.php:731-740 | the foreach appends each unvisited child to the list and the queue and marks it visited |
| ZoneGraph.DiscoveredAreReachable | api/dns_api.php:717-741 | every id discovered after the start is reachable from it |
| ZoneGraph.ClosedContainsReachable | api/dns_api.php:717-741 | a set closed under the include edges holds every zone reachable from its members |
| ZoneGraph.ParentOf | api/dns_api.php:787-790 | the parent of the first row naming the zone as include, none when no row does |
| ZoneGraph.FindTopMaster | api/dns_api.php:780-808 | the walk climbs at most 100 distinct ancestors and stops at a zone without parent, a revisited parent, or the limit |
| ZoneGraph.ActiveParent | api/dns_api.php:611-618 | the first include row naming the zone whose parent is an active zone file |
| ZoneGraph.Climb | api/dns_api.php:601-644 | the master a climb settles on is an active master at or above the start zone |
| ZoneGraph.ClimbToMaster | api/dns_api.php:595-645 | the while loop for one include returns exactly the climb's master |
| ZoneGraph.ExpandAllowedMasters | api/dns_api.php:594-645 | direct masters stay first; each include adds at most one active master; no duplicates appear; exactly the climbs' masters are added |
| ValidationJobs.IncludeTarget | jobs/process_validations.php:47 | a line matching the $INCLUDE pattern yields its non-empty path of non-space, non-quote characters |
| ValidationJobs.DirectiveLineRecognised | jobs/process_validations.php:47 | every line of the pattern's grammar is recognised, with its path captured |
| ValidationJobs.Basename | jobs/process_validations.php:51 | the basename holds no '/' |
| ValidationJobs.BasenameIdempotent | jobs/process_validations.php:51 | the basename of a basename is itself |
| ValidationJobs.Lookup | jobs/process_validations.php:59-71 | a row that resolves the path (an active include whose filename is the path or its basename), none exactly when no row does |
| ValidationJobs.ResolvedIsIncludable | jobs/process_validations.php:59-71 | a resolved include's basename is among the basenames the table can supply |
| ValidationJobs.RemainingShrinks | jobs/process_validations.php:53-57 | recording a new includable basename shrinks what is left to visit, so recursion terminates |
| ValidationJobs.Expand | jobs/process_validations.php:49-81 | the callback keeps a plain line, or replaces a directive by its include's flattened content while the visited list grows |
| ValidationJobs.ExpandInlinesInclude | jobs/process_validations.php:49-81 | a directive line whose basename is new and whose path resolves becomes the include's flattened content, with the basename recorded; an include with no directive line of its own is inlined unchanged |
| ValidationJobs.FlattenDirectiveLine | jobs/process_validations.php:44-88 | a content made of one directive line flattens to the flattened content of the include it names |
| ValidationJobs.FlattenLines | jobs/process_validations.php:49-81 | each line is replaced by its piece, in order, threading the visited list |
| ValidationJobs.FlattenContent | jobs/process_validations.php:44-88 | a successful flatten contains no $INCLUDE line, and the visited list only grows with distinct includable basenames |
| ValidationJobs.SplitAround | jobs/process_validations.php:49-81 | the lines of a text joined at a newline are the lines of each part |
| ValidationJobs.JoinedPiecesClean | jobs/process_validations.php:73-80 | joining directive-free pieces gives a text with no directive line |
| ValidationJobs.FlattenInlinesEachIncludeOnce | jobs/process_validations.php:50-57 | within one flatten each include basename is inlined at most once, and only includable ones |
| ValidationJobs.PlainLinesUnchanged | jobs/process_validations.php:47-49 | lines without directives pass through unchanged and leave the visited list alone |
| ValidationJobs.CleanContentUnchanged | jobs/process_validations.php:44-88 | a text without directive lines flattens to itself |
| ValidationJobs.FlattenIdempotent | jobs/process_validations.php:44-88 | a flattened text flattens to itself |
| ValidationJobs.RepeatedIncludeFails | jobs/process_validations.php:53-57 | the shared visited list makes a basename included twice, even by sibling lines, fail |
| ValidationJobs.FindZone | jobs/process_validations.php:136-145 | a row with the id whose status is not 'deleted', none exactly when no row qualifies |
| ValidationJobs.JobPassesIff | jobs/process_validations.php:128-209 | a job is stored 'passed' iff its zone exists, the temp directory and file are made, it flattens, and named-checkzone exits 0; a checked job stores the checker's output |
| ValidationJobs.FlattenFailureSkipsChecker | jobs/process_validations.php:163-174 | a flatten error is stored as 'failed' with the prefix "Failed to flatten zone content:" and the checker is never consulted |
| ValidationJobs.ProcessQueue | jobs/process_validations.php:128-228 | one stored result per job, in queue order, each the job's own decision |
| ValidationJobs.ProcessQueueAsWritten | jobs/process_validations.php:197-198 | the loop as written stores one result per job |
| ValidationJobs.CheckerOutputCarriedOver | jobs/process_validations.php:197-198 | as written, a second checked job stores the first job's checker lines in front of its own |
| ZoneCombobox.SortZonesCorrect | assets/js/zone-combobox.js:20-28 | the sorted copy is a permutation of the input ordered by lower-cased name, filename or '' |
| ZoneCombobox.SortByCorrect | assets/js/zone-combobox.js:23-27 | sorting by a key gives a sorted permutation |
| ZoneCombobox.KeyLeTotal | assets/js/zone-combobox.js:26 | any two keys are comparable |
| ZoneCombobox.InsertSorted | assets/js/zone-combobox.js:23-27 | inserting at its position keeps a sorted list sorted |
| ZoneCombobox.DedupedCorrect | assets/js/zone-combobox.js:55-62 | the deduplicated list has no missing or repeated id, keeps each id's first zone, and loses no id |
| ZoneCombobox.FilterKeepsFirst | assets/js/zone-combobox.js:55-62 | a zone that is the first with its id stays the first with its id after any filter that keeps it |
| ZoneCombobox.FirstInDeduped | assets/js/zone-combobox.js:55-62 | the first zone carrying a present id is the one deduplication keeps |
| ZoneCombobox.DedupedSubMultiset | assets/js/zone-combobox.js:55-62 | deduplication only drops zones |
| ZoneCombobox.DedupeById | assets/js/zone-combobox.js:56-62 | the filter with its mutable seen-set computes the deduplicated list |
| ZoneCombobox.OfType | assets/js/zone-combobox.js:72-73 | only zones of the list whose trimmed, lower-cased type is the one asked for |
| ZoneCombobox.FindById | assets/js/zone-combobox.js:109-111 | the first zone with the id, none exactly when no zone has it |
| ZoneCombobox.ChainReachesMaster | assets/js/zone-combobox.js:92-114 | the while loop answers whether the master's id is on the zone's parent chain within 50 steps |
| ZoneCombobox.IncludesUnder | assets/js/zone-combobox.js:88-115 | only include zones of the list whose ancestor chain reaches the master |
| ZoneCombobox.FindMaster | assets/js/zone-combobox.js:83-85 | a found master has the id and the type master |
| ZoneCombobox.MakeOrderedZoneList | assets/js/zone-combobox.js:52-120 | the loops compute the ordered zone list |
| ZoneCombobox.OrderedFromUnique | assets/js/zone-combobox.js:52-120 | the ordered list takes each deduplicated zone at most once |
| ZoneCombobox.OrderedZoneListUnique | assets/js/zone-combobox.js:55-62 | the output has no missing or duplicate id, and each zone is the first with its id |
| ZoneCombobox.MasterBesideIncludes | assets/js/zone-combobox.js:119 | a master is never among the includes, so the selected list counts it once |
| ZoneCombobox.NoMasterOrdering | assets/js/zone-combobox.js:71-79 | with no master selected, sorted masters come first, then sorted includes, and no other type; every master and include zone of the deduplicated list is listed |
| ZoneCombobox.SortedOfTypeHolds | assets/js/zone-combobox.js:72-79 | a zone of the type asked for survives the type filter and the sort |
| ZoneCombobox.MasterSelectedOrdering | assets/js/zone-combobox.js:82-119 | with a master selected, the list is that master, when present, followed by the sorted includes whose chain reaches it, and every such include of the deduplicated list is listed |
| ZoneComboboxShared.UnparsableMessageClass | assets/js/zone-combobox-shared.js:101-110 | the message thrown for an unparsable body can be read back to its status class: connection for 499, server from 500, client from 400, invalid-response below |
| ZoneComboboxShared.ApiCallOutcome | assets/js/zone-combobox-shared.js:68-124 | the call succeeds iff the fetch worked, the body parsed and the status is 2xx, and then yields the body |
| ZoneComboboxShared.FilteredZonesWanted | assets/js/zone-combobox-shared.js:262-274 | the filters keep exactly the zones of the type whose name or filename contains the query: every such zone and no other, and never duplicate one |
| ZoneComboboxShared.FilteredKeepsFirst | assets/js/zone-combobox-shared.js:262-274 | a wanted zone that is the first with its id in the cache is still the first with its id after filtering |
| ZoneComboboxShared.ClientZonesFiltered | assets/js/zone-combobox-shared.js:252-283 | every offered zone comes from the current list (else all zones) and passes both filters, with no zone offered more often than the cache holds it; without the ordering helper every wanted cached zone is offered, and with it and no master selected every wanted master or include zone that is the first in the cache with its id |
| ZoneComboboxShared.IsZoneInMasterTree | assets/js/zone-combobox-shared.js:419-445 | false without zone or master, true for the master itself, else true iff the master is a parent on the chain within the depth limit (default 20) |
| ZoneComboboxShared.ParentWithinMonotone | assets/js/zone-combobox-shared.js:430-442 | a longer walk finds everything a shorter one finds |
| ZoneComboboxShared.WalksAgree | assets/js/zone-combobox-shared.js:427-444 | the shared walk and the combobox's ancestor walk agree for the same list and limit |
| BindImport.DeriveOrigin | scripts/import_bind_zones.py:305-313 | the origin always ends with '.'; it is the first $ORIGIN argument, else the file stem |
| BindImport.ZoneName | scripts/import_bind_zones.py:436 | the zone name is the origin without trailing dots |
| BindImport.OriginDirectiveAt | scripts/import_bind_zones.py:306 | the directive matches at a line start and captures a non-empty run of non-space characters |
| BindImport.FirstOriginFrom | scripts/import_bind_zones.py:306 | re.search finds the leftmost matching directive |
| BindImport.StemNamesZone | scripts/import_bind_zones.py:311-313 | without a directive, the stem "example.com" names the zone "example.com" |
| BindImport.DirectiveOnFirstLine | scripts/import_bind_zones.py:306-310 | a directive on the first line wins over the stem |
| BindImport.ExtractSoaData | scripts/import_bind_zones.py:325-351 | without an apex SOA the defaults apply (refresh 10800, retry 900, expire 604800, minimum 3600, null names); with one, its fields |
| BindImport.ConvertRdata | scripts/import_bind_zones.py:377-423 | a converted row always holds the base keys with status 'active' and value str(rdata), plus the type's keys; None when a conversion raises |
| BindImport.TypeSpecificKeys | scripts/import_bind_zones.py:390-417 | the type-specific keys never clash with the base keys |
| BindImport.TxtStringsJoined | scripts/import_bind_zones.py:404-408 | a TXT record's strings are joined by single spaces |
| BindImport.Converted | scripts/import_bind_zones.py:368-373 | the loop keeps at most as many rows as items |
| BindImport.ConvertedFrom | scripts/import_bind_zones.py:368-373 | every kept row comes from some item |
| BindImport.ConvertedKeepsAllIff | scripts/import_bind_zones.py:368-373 | nothing is dropped exactly when no conversion fails |
| BindImport.RdataRecordsDropOnlyFailures | scripts/import_bind_zones.py:368-373 | only rdatas whose conversion raised are dropped |
| BindImport.NodeRecords | scripts/import_bind_zones.py:360-373 | no row of a node is an SOA record |
| BindImport.ZoneRecords | scripts/import_bind_zones.py:353-375 | no extracted row is an SOA record |
| BindImport.ConvertRdataset | scripts/import_bind_zones.py:368-373 | the innermost loop computes the rdataset's rows |
| BindImport.ConvertNode | scripts/import_bind_zones.py:360-373 | the middle loop computes the node's rows, skipping SOA |
| BindImport.ExtractRecords | scripts/import_bind_zones.py:353-375 | the nested loops compute the zone's rows |
| BindImport.Keep | scripts/import_bind_zones.py:264-275 | kept columns are in the schema and, when required, in the record |
| BindImport.KeepMembers | scripts/import_bind_zones.py:264-275 | a column is kept exactly when the schema has it and, if required, the record has it |
| BindImport.SelectedColumnsInSchema | scripts/import_bind_zones.py:237-293 | every insert column is in the schema, and every type-specific column is also a key of the record |
| BindImport.KeepColumns | scripts/import_bind_zones.py:264-275 | one append loop builds the kept columns and their values |
| BindImport.SelectColumns | scripts/import_bind_zones.py:260-280 | the column selection of both inserts builds the selected columns and values |
| BindImport.Params | scripts/import_bind_zones.py:267 | one bound value per column |
| BindImport.Placeholders | scripts/import_bind_zones.py:284 | one placeholder per value |
| BindImport.BoundValues | scripts/import_bind_zones.py:285 | at most one bound parameter per value |
| BindImport.PlaceholderCount | scripts/import_bind_zones.py:284-285 | the number of '%s' placeholders equals the number of bound parameters |
| BindImport.RecordInsert | scripts/import_bind_zones.py:237-293 | the dns_records INSERT names the selected columns (base columns in the schema, the type's columns in schema and record, created_at), with NOW() for created_at and the record's values bound in order, one per '%s' |
| BindImport.ZoneInsert | scripts/import_bind_zones.py:177-215 | the zone_files INSERT names the selected columns (base columns in the schema, optional ones in schema and zone data, created_at), with NOW() for created_at and the zone data's values bound in order, one per '%s' |
| BindImport.PlaceholdersAsWritten | scripts/import_bind_zones.py:284 | the code as written gives one placeholder per value |
| BindImport.AsWrittenAgreesWithoutNowText | scripts/import_bind_zones.py:284-285 | when no value is the text NOW(), the code as written builds the intended statement |
| BindImport.TxtNowRow | scripts/import_bind_zones.py:404-408 | a TXT record whose only string is NOW() is converted with txt = NOW() |
| BindImport.NowTextAsWritten | scripts/import_bind_zones.py:284-285 | as written, the text NOW() becomes the SQL NOW() and is not bound; intended, it is bound |
| BindImport.TxtNowBecomesTimestamp | scripts/import_bind_zones.py:272-285 | as written, a TXT record whose text is NOW() stores the SQL timestamp, not the text |
| BindImport.ZoneData | scripts/import_bind_zones.py:451-460 | zone_data describes an active master whose name and domain are the zone name, with the file's name, the importing user, the zone's default TTL (else 86400) and the extracted SOA columns |
| BindImport.Accepted | scripts/import_bind_zones.py:493-502 | no more rows are accepted than offered |
| BindImport.ZoneImporter.ImportZoneFile | scripts/import_bind_zones.py:425-504 | a parse failure counts one error; skip-existing counts one skip; a dry run counts one zone and all records; a failed creation counts one error; otherwise records_created + errors grows by exactly the number of records |
| BindImport.ZoneImporter.ImportParsed | scripts/import_bind_zones.py:451-504 | after the skip check, a dry run counts one zone and all its records with no error; otherwise a failed creation counts one error and a created zone counts one zone, each accepted record as created and each rejected one as an error |
| BindImport.ZoneImporter.StoreZone | scripts/import_bind_zones.py:477-504 | a failed creation adds one error and no records; otherwise one zone and, per record, one success or one error |
| BindImport.ZoneImporter.CreateRecords | scripts/import_bind_zones.py:493-502 | each record adds one to records_created or to errors, nothing else |
| BindImport.ZoneImporter.Run | scripts/import_bind_zones.py:586-623 | run succeeds iff a directory and a mode are given and no error was counted; errors grows by exactly the sum of what each file's import counts, and no include is counted |
| ApiToken.Bin2Hex | includes/models/ApiToken.php:29 | the token is two lower-case hex digits per random byte |
| ApiToken.Hex2BinOfBin2Hex | includes/models/ApiToken.php:29 | the hex text loses nothing: the bytes come back from it |
| ApiToken.ExpiresAt | includes/models/ApiToken.php:37-44 | an expiry is set iff the days argument is a numeric string with a positive value; it then lies a whole number of days after now, that number being the value with its fraction dropped |
| ApiToken.ExpiresAtForms | includes/models/ApiToken.php:39-42 | "0.5" days expires now, "1.5" days after one day, "1e1" days after ten days |
| ApiToken.UserOf | includes/models/ApiToken.php:79-87 | a user with the id, none exactly when no user has it |
| ApiToken.FindToken | includes/models/ApiToken.php:79-91 | the first row with the hash whose owner exists, none when no row is |
| ApiToken.Touch | includes/models/ApiToken.php:115-117 | only the rows with the id get last_used_at = now, and nothing else changes |
| ApiToken.ValidateIff | includes/models/ApiToken.php:73-125 | validate succeeds iff the first row found by hash is not revoked, not expired before now, and its owner is active; it then returns that row's id, owner and name; a refusal leaves the table unchanged |
| ApiToken.RefusalOrder | includes/models/ApiToken.php:89-113 | a refusal reports the first failing check: unknown, revoked, expired, inactive |
| ApiToken.RevokeRows | includes/models/ApiToken.php:138-147 | revoke sets revoked_at on the rows with the id and changes nothing else |
| ApiToken.RevokedTokenFails | includes/models/ApiToken.php:138-147 | after revoke(id), a token found as that row no longer validates |
| ApiToken.DeletedTokenFails | includes/models/ApiToken.php:185-194 | after delete(id), no token validates as that row |
| ApiToken.ListByUserExact | includes/models/ApiToken.php:156-172 | listByUser shows exactly the user's tokens, omitting revoked ones unless asked, without the hash |
| ApiToken.TokenStore.Generate | includes/models/ApiToken.php:26-59 | the token is 64 lower-case hex characters encoding the random bytes; its prefix is its first 8; only the hash and prefix are stored, under the next id |
| ApiToken.TokenStore.Validate | includes/models/ApiToken.php:73-125 | the answer and the table afterwards are those of the validate decision |
| ApiToken.TokenStore.Revoke | includes/models/ApiToken.php:138-147 | the table becomes the revoked table |
| ApiToken.TokenStore.Delete | includes/models/ApiToken.php:185-194 | the table loses the rows with the id |
| ApiToken.GeneratedThenRevoked | tests/unit/ApiTokenTest.php:140-146 | a fresh token is found as its own row and fails once that row is revoked |
| Logger.Priority | includes/lib/Logger.php:23-28 | DEBUG..ERROR map to 1..4, and any other level counts as INFO |
| Logger.LevelsOrdered | includes/lib/Logger.php:85-87 | DEBUG < INFO < WARN < ERROR, and unknown names count as INFO |
| Logger.ErrorsAlwaysDebugOnlyOnRequest | includes/lib/Logger.php:85-92 | errors are always written; debug messages exactly when the configured level is DEBUG |
| Logger.EmitsUpward | includes/lib/Logger.php:85-92 | raising a message's level never suppresses it |
| Logger.IsSensitiveKey | includes/lib/Logger.php:140-149 | a key is sensitive iff its lower-cased form contains password, passwd, pwd, token, secret, api_key or apikey |
| Logger.SanitizedEntries | includes/lib/Logger.php:139-159 | keys are kept in order; sensitive values become '[REDACTED]'; nested arrays are sanitized; other values are copied |
| Logger.Sanitized | includes/lib/Logger.php:131-134 | an empty or non-array context is returned unchanged |
| Logger.SanitizedEntry | includes/lib/Logger.php:151-158 | each entry is its key with '[REDACTED]' or its sanitized value |
| Logger.SanitizedIsClean | includes/lib/Logger.php:131-162 | no sensitive key, at any depth, keeps anything but '[REDACTED]' |
| Logger.SanitizedIdempotent | includes/lib/Logger.php:131-162 | sanitizing twice changes nothing more |
| Logger.SanitizeContext | includes/lib/Logger.php:131-162 | the foreach computes the sanitized context |
| Logger.LineShape | includes/lib/Logger.php:95-111 | the line is "<timestamp> [dns3][LEVEL][module] message", with " <json>" of the sanitized context only when it is non-empty and encodes |
| Logger.SanitizedEmptyIff | includes/lib/Logger.php:99-103 | the context is empty after sanitizing iff it was empty before |
| Logger.WithNewline | includes/lib/Logger.php:171-174 | exactly one '\n' is added when missing, none otherwise |
| Logger.WithNewlineIdempotent | includes/lib/Logger.php:171-174 | adding the newline twice is adding it once |
| Logger.LogTraceIff | includes/lib/Logger.php:83-122 | a message leaves a trace in a file or error_log iff the level filter lets it through |
| Logger.LogAppendsToFile | includes/lib/Logger.php:113-183 | only the configured file changes; it keeps its old content and ends with a newline |
| Logger.ZeroPathFallsBack | includes/lib/Logger.php:116-122 | a log path of '0' is false to PHP, so the line goes to error_log |
| Logger.LogSink.WriteToFile | includes/lib/Logger.php:170-184 | the sinks after writeToFile are the written state |
| Logger.LogSink.Log | includes/lib/Logger.php:83-123 | the sinks after log are the logged state |
| DnsRecords.EscapeChar | assets/js/dns-records.js:278-284 | each of & < > " ' becomes a longer entity of the form &...;, and every other character stays itself |
| DnsRecords.EscapeHtml | assets/js/dns-records.js:276-286 | null and undefined give ''; the output has no raw < > " '; it is never shorter than the input, and the same length iff nothing needed escaping |
| DnsRecords.Escape | assets/js/dns-records.js:285 | the replacement leaves no markup character and changes nothing when there is nothing to replace |
| DnsRecords.UnescapeEscape | assets/js/dns-records.js:278-285 | decoding the five entities gives the text back, so escaping loses nothing |
| DnsRecords.ToggledStatus | assets/js/dns-records.js:224 | 'active' asks for 'disabled', and anything else for 'active' |
| DnsRecords.ToggleTwice | assets/js/dns-records.js:224 | toggling twice returns to the start iff the status is 'active' or 'disabled' |
| DnsRecords.ToggleStatus | assets/js/dns-records.js:223-227 | the set_status request names the record and a status different from the current one |
| Text.Lower | includes/models/Acl.php:42 | lower-casing maps each character by ASCII lower-casing, keeping the length |
| Text.TrimLeft | includes/models/Acl.php:42 | the trimmed text is a suffix without a leading trim character |
| Text.TrimRight | includes/models/Acl.php:42 | the trimmed text is a prefix without a trailing trim character |
| Text.IntvalOfDecimal | api/dns_api.php:338 | the decimal text of n is numeric with value n, and intval of it is n |
| Text.IntvalOfDigits | api/dns_api.php:338 | a run of digits is numeric, and its value and its cast are the integer it spells |
| Text.Truncate | includes/models/ApiToken.php:42 | the cast keeps the integer part: within one below a positive value and within one above a negative one |
| Text.PhpNumericValue | includes/models/ApiToken.php:39 | a numeric string is a leading number followed only by white space, and its (int) cast truncates its value |
| Text.ScanPointed | includes/models/Acl.php:435-437 | digits, a decimal point and digits scan as one mantissa whose scale is the number of fraction digits |
| Text.ScanExponentForm | includes/models/Acl.php:435-437 | digits, 'e' and digits scan as an integer mantissa with that exponent |
| Text.PointedValue | includes/models/ApiToken.php:39-42 | digits, a point and digits form a numeric string whose value is the digits read as one integer over ten to the number of fraction digits, and whose cast truncates that value |
| Text.ExponentValue | includes/models/ApiToken.php:39-42 | digits, 'e' and digits form a numeric string whose value and cast are the mantissa times ten to the exponent |
| Text.PointedPair | includes/models/ApiToken.php:39-42 | a digit, a point and a digit denote the two-digit integer over ten, and cast to its truncation |
| Text.ExponentPair | includes/models/ApiToken.php:39-42 | a digit, 'e' and a digit denote the first digit times ten to the second, and cast to that integer |
| Text.OnePointZeroForm | includes/models/Acl.php:435-437 | "1.0" is a numeric string of value 1 that casts to 1 |
| Text.OneExponentZeroForm | includes/models/Acl.php:435-437 | "1e0" is a numeric string of value 1 that casts to 1 |
| Text.HalfForm | includes/models/ApiToken.php:39-42 | "0.5" is numeric with value 0.5 and casts to 0 |
| Text.OneAndHalfForm | includes/models/ApiToken.php:39-42 | "1.5" is numeric with value 1.5 and casts to 1 |
| Text.TenForm | includes/models/ApiToken.php:39-42 | "1e1" is numeric with value 10 and casts to 10 |
| Text.EqualsIgnoreCaseContains | includes/models/Acl.php:234-241 | case-insensitive equality implies the case-insensitive substring test |
| Text.Split | includes/lib/DnsValidator.php:102 | explode yields at least one piece, none holding the separator |
| Text.JoinSplit | includes/lib/DnsValidator.php:102 | implode undoes explode |
| Text.SplitAdjacentSeparators | includes/lib/DnsValidator.php:102 | two adjacent separators give an empty piece |
| Text.SplitLeadingSeparator | includes/lib/DnsValidator.php:102 | a leading separator gives an empty first piece |
| Text.SplitTrailingSeparator | includes/lib/DnsValidator.php:102 | a trailing separator gives an empty piece |
| Text.SplitCovers | includes/lib/DnsValidator.php:102 | every non-separator character lies in some piece |

## Left out

- I/O and foreign calls are parameters of the model, not modelled:
  - HTTP handling, the database connection and PHP sessions;
  - dnspython's parser; the result is a parsed-zone datatype;
  - filter_var IP classification; `IpOracle` holds two predicates;
  - `random_bytes`, SHA-256 and the clock; they are a byte sequence, a function and an integer;
  - `DateTime` parsing of expires_at;
  - `json_encode`;
  - the named-checkzone run;
  - the importer's database and API calls.
- mb_strtolower, strcasecmp, stripos and localeCompare are ASCII lower-casing and lexicographic order on the lowered keys. Unicode case folding and locale collation are not modelled.
- Timestamps written with SQL `NOW()` (created_at, last_used_at, revoked_at, checked_at) are integers passed in, and expiry uses 86400-second days. DST and calendar arithmetic are not modelled.
- PHP loose comparison in `in_array`, the integer keys of PHP arrays, and MySQL's string-to-number conversion are not modelled. Role names and ids are compared exactly, and ZoneAcl's `(int)` cast is the leading number's value truncated toward zero.
- Text.PhpIntval: integers are unbounded, so the saturation of a long digit string at PHP_INT_MAX and the cast of an out-of-range float are not modelled.
- ZoneAcl.AddEntryRejects: the user-existence query binds the identifier as text and MySQL compares it with the id as a number, so "1.5" finds no user there; the model looks up the (int) cast, 1.
- ApiToken.ExpiresAt: the days argument is its text; a JSON number reaches the model as its decimal text.
- RecordApi.TtlAcceptableMeaning: is_numeric's decimal, exponent and hexadecimal-free forms are a real-valued `TtlInput`, and intval overflow is not modelled.
- ValidationJobs.FlattenContent: flattening works line by line on '\n'-separated text. PCRE `\s` at the edges of the multiline pattern can also span adjacent blank lines, and preg errors (the null result) are not modelled.
- ValidationJobs.ProcessQueue: the exception path that stores "Validation error:" is not modelled. Neither are temporary-file clean-up and the console output.
- The per-job zone row, temp directory and file write are parameters. A failed store (storeValidationResult returning false) is not modelled.
- Exception paths that turn a PDO error into `false`, `null` or `[]` are not modelled, in Acl, ZoneAcl, AuthModel and ApiToken.
- The duplicate-key exception that sync's INSERT would raise is not modelled. user_roles is a set.
- ApiToken.ListByUserExact: the `ORDER BY created_at DESC` ordering is not modelled. The listing keeps table order.
- Acl: hasAnyAclForUser, getAllowedZoneIds and the logging helpers are outside the modelled core.
- ZoneAcl: listForZone, removeEntry, getById and getAccessibleZoneIds are outside the modelled core.
- AuthModel: userHasRole, userHasRoleId, getUserRoles, isAdmin and isZoneEditor are read-only queries outside the modelled core.
- BindImport: the example mode (run_example) and print_stats are not modelled. Neither is the directory globbing of import_directory: the files are an input sequence.
- BindImport: the API-mode creation calls are the same `createZone`/`createRecord` parameters as DB mode, and `zone.get_ttl` is an optional default TTL.
- ZoneComboboxShared: the DOM, fetch, event handlers and `window` globals are left out. The globals are parameters; `parseInt` on ids is the integer id, and JavaScript's non-array and NaN inputs are not modelled.
- ZoneCombobox.SortZonesCorrect: the model sorts by insertion, which is stable. The source's `Array.prototype.sort` is not guaranteed stable on old engines, so only sortedness and permutation are stated.
- DnsRecords: escapeHtml's `String(text)` conversion of non-strings is not modelled. toggleStatus's reload and messages are left out; only the request it sends is modelled.
- Logger: the timestamp from `date()` is a parameter, and only the file contents and error_log lines are modelled, not the file locking.

## Findings

| source | as written | input that shows it | evidently intended | confidence | as-written member | corrected member |
|---|---|---|---|---|---|---|
| includes/lib/DnsValidator.php:54 | `/^[a-zA-Z0-9\-]+$/` has no D modifier, so `$` also matches before a final newline | the label "abc\n", and so the name "example.com\n" | a label of letters, digits and hyphens only | high (not executed) | DnsValidator.TrailingNewlineLabelAccepted | DnsValidator.ValidateLabel |
| api/dns_api.php:127 | the CNAME/PTR hostname pattern has the same `$`, so a target ending in "\n" passes | the CNAME target "www\n" | a target of alphanumerics, hyphens and dots with alphanumeric ends | high (not executed) | RecordApi.TrailingNewlineTargetAccepted | RecordApi.HostnamePatternLanguage |
| scripts/import_bind_zones.py:284-285 | any column value equal to the text 'NOW()' becomes the SQL expression NOW() and is not bound | a TXT record whose text is NOW() | only the created_at timestamp uses SQL NOW(); record values are always bound | high (not executed) | BindImport.TxtNowBecomesTimestamp | BindImport.RecordInsert |
| jobs/process_validations.php:197 | `exec` appends to `$output`, which is never reset between jobs | two checked jobs whose checker prints lines: the second stores the first's lines too | each job stores only its own checker output | high (not executed) | ValidationJobs.CheckerOutputCarriedOver | ValidationJobs.ProcessQueue |
