# Stanza HR: a verified model

This project models, in Dafny 4.11, the parts of the Stanza HR server and its tooling whose correctness
rests on an argument rather than on one line of code, and proves that argument for every input, every run
or every interleaving. `dafny verify dfyconfig.toml` checks all of it.

| part | files | form |
|---|---|---|
| import-cycle detector of the architecture test | `SourceImports.dfy`, `ImportCycles.dfy` | class and methods over the sources and the mutable search state |
| login lock-out limiter | `LoginLimiter.dfy`, `LoginHistory.dfy`, `LoginBound.dfy`, `LoginLocks.dfy`, `LoginSize.dfy` | class with the mutable store; interleaved runs over its specification functions |
| sessions, password reset, WebAuthn challenges | `Credentials.dfy`, `CredentialsInvariant.dfy`, `CredentialsRuns.dfy`, `CredentialsStatements.dfy`, `CredentialsProgress.dfy`, `SessionRevocation.dfy`, `WebAuthnChallenges.dfy` | step system: transactions over tables with row locks |
| tenant registration | `Registration.dfy` | step system with an advisory lock |
| profile photos | `Avatar.dfy`, `AvatarAddresses.dfy`, `AvatarLostAck.dfy` | step system over a file store and a database row, with crashes and, in the last, lost acknowledgements |
| authority claims | `Authority.dfy` | relational operators on bags of rows |
| tenant roles: normalisation and seeding | `TenantRoles.dfy`, `TenantSeeding.dfy`, `JsText.dfy` | methods with loops; class with the role and grant tables |
| reporting hierarchy query | `Hierarchy.dfy` | the recursive query as rounds over a working table |
| session cookie | `Cookies.dfy`, `CookieHeaders.dfy`, `UriComponent.dfy`, `UriSpelling.dfy` | functions on strings |
| service worker | `ServiceWorker.dfy`, `ServiceWorkerRules.dfy`, `ServiceWorkerRuns.dfy` | class with the caches; runs over its specification functions |

`Options.dfy`, `Sequences.dfy` and `Locks.dfy` hold what several parts share.

How the parts are modelled:

- **Transactions** follow PostgreSQL's READ COMMITTED. `Credentials.Enabled` and `Credentials.Apply` run one
  transaction as `Begin` (which fixes its `NOW()`), then for each statement `OpenStatement` (the rows that match now),
  one `Visit` a row (wait for the lock, test the WHERE clause again on the committed version, lock, mark), and
  `CloseStatement`; then `Commit` or `Abort`. An abort may come at any moment, which covers deadlock victims and lost
  connections. Rows carry the transaction that marked them. A transaction commits when its function returns
  and rolls back when it throws, as `withTenant` does (`src/lib/background-connections.ts:119-135`).
- **Time** in the limiter is an argument that never falls; each check and each record reads it for itself.
- **Profile photos**: a request may crash or throw between any two steps; a failed write may leave a partial file.
- **The service worker** is cut at its waits: a fetch starts, its answer (or failure) arrives later, and the cache
  write that the answer starts lands later still or fails. Other caches on the origin change at any time.
- Random tokens, hashes, passwords and signatures do not appear: a row is known by its identifier.

Findings, each with its proof:

- In every interleaving no interval of one lock time holds more than eight failures of a key that find it without
  a lock (`LoginBound.AtMostEightFailures`). So eight is the bound on all of them when nothing of the same key comes
  between a check and its record, whatever other keys do (`LoginBound.BackToBackIsBounded`). Login waits between the
  two, so requests of one key may overlap, and then any number of failures is admitted at one moment, on the lock of
  the fifth (`LoginBound.RushBreaksTheBound`).
- The limiter's store stays below its capacity plus two entries for each login in flight, and reaches that
  (`LoginSize.SizeBound`, `LoginSize.SizeBoundIsReached`): 20001 entries when logins come one after another.
- One window of a key counts at most five failures exactly when no failure is recorded on a lock within its window
  (`LoginBound.CountsStopExactly`); the sweep is invisible exactly when no failure meets a lock that has run out
  within its window (`LoginHistory.SweepIsInvisible`).
- A key has at most one unused challenge throughout exactly when every store that commits has marked all that are
  unused at that moment (`WebAuthnChallenges.AtMostOneExactly`). Serialised stores do; stores that overlap need not
  (`WebAuthnChallenges.OverlappingStoresLeaveTwo`).
- Normalising roles twice can change a description longer than 500 code units, but only when the first cut falls
  right behind white space (`TenantRoles.DescriptionIsStable`).
- If a commit takes effect but its acknowledgement is lost, the upload removes the file it just put in place. In runs
  where that may happen an address dangles exactly then (`AvatarLostAck.DanglesExactly`); the theorems of `Avatar`
  assume that a throw means not committed.
- The offline shell is the last page navigated to, whatever page that was (`ServiceWorkerRuns.AnyPageBecomesTheShell`).
- The server reads back every token it prints exactly when no cookie in front of it reads as the session cookie
  (`Cookies.RoundTripExactly`). A different name is not enough: one with leading white space of the script, such as
  U+00A0, reads as the session cookie (`Cookies.LookalikeDecides`).

## Model

| member | source | states |
|---|---|---|
| SourceImports.BuildImportGraph | scripts/architecture-test.ts:45-58 | the loop over files and statements builds exactly the specified graph: every source file is a key and its dependencies stand in statement order |
| SourceImports.EdgesAreImports | scripts/architecture-test.ts:30-58 | the graph has an edge exactly where an import or export that is more than a type's names that file: the path itself if it is a source, or else the first source among the path with .ts, with .tsx, and index.ts and index.tsx under it; no edge leaves the source files |
| SourceImports.OneDependency | scripts/architecture-test.ts:33-56 | one statement gives a dependency exactly if it names a source, and then that one |
| SourceImports.DependenciesInOrder | scripts/architecture-test.ts:45-58 | the dependencies of a file stand in the order of its statements, none lost and none added |
| SourceImports.ReportImportCycles | scripts/architecture-test.ts:45-85 | no report exactly when no chain of such imports comes back to its start, told by the statements and the names of the sources alone; every report is such a chain without another repetition |
| ImportCycles.CycleFinder.Visit | scripts/architecture-test.ts:65-78 | a visit keeps the search invariant (duplicate-free stack that is a walk, one report per back edge), restores the stack, undoes nothing, marks the file and terminates on the unvisited files |
| ImportCycles.FindImportCycles | scripts/architecture-test.ts:60-85 | empty result if and only if the graph is acyclic, and then the finishing order is topological; every report is a simple cycle closed by its own import statement; the reports are exactly the back edges of the search, one for each occurrence; every file is finished once |
| ImportCycles.CompleteSearch | scripts/architecture-test.ts:80-84 | a finished search has found a cycle if and only if there is one |
| ImportGraph.TopologicalMeansAcyclic | scripts/architecture-test.ts:60-85 | a graph with an order that lists each file behind all it imports has no closed walk |
| LoginLimiter.LoginAttemptStore.Sweep | server.ts:511-514 | the sweep, at most once a minute, drops exactly the entries whose lock, or whose window without a lock, is over |
| LoginLimiter.LoginAttemptStore.CheckLoginRateLimit | server.ts:512-534 | new store and answer of one check: sweep, capacity, live lock, lazy deletion |
| LoginLimiter.LoginAttemptStore.RecordFailedLogin | server.ts:536-554 | new store of one failure: a new count outside the window, otherwise one more and a lock from the fifth on |
| LoginLimiter.LoginAttemptStore.CheckLoginRateLimits | server.ts:262-268 | the keys in order, up to the first that is locked |
| LoginLocks.FifthFailureLocks | server.ts:169-171 | in every interleaving a key whose failures since its last success are five within ten minutes is refused for five minutes after the fifth, for the remaining seconds rounded up, and with fewer, or later, it is admitted unless 20000 other keys are stored |
| LoginLocks.CheckIsExact | server.ts:512-534 | a key is refused exactly during a live lock, for its remaining seconds rounded up, or for a minute if it is unknown and 20000 keys are left after the sweep |
| LoginLocks.CheckDropsExactly | server.ts:511-534 | a check drops exactly the entries that are over if a minute has passed since the last sweep, and its own once its lock or window is over |
| LoginLocks.NewWindowStarts | server.ts:536-547 | a failure more than ten minutes after the first begins a new count |
| LoginLocks.KeysAreApart | server.ts:258-260 | two logins share a counter exactly if they have the same email or the same address, and no email counts for an address |
| LoginBound.AtMostEightFailures | server.ts:169-171 | in every interleaving of checks, failures and clears of any keys, no half-open interval of one lock time holds more than 2 * 5 - 2 = 8 failures of a key that find it without a lock, counting from its last success, and so no more failures at all than 8 plus those recorded on a lock |
| LoginBound.WithoutLocksAtMostEight | server.ts:512-554 | if the failures of a key all find it without a lock, none of its intervals holds more than eight failures |
| LoginBound.BackToBackIsBounded | server.ts:512-554 | so it is for every key whose records each follow their own admitted check with no other event of that key between, whatever other keys do |
| LoginBound.CountsStopExactly | server.ts:536-554 | in every interleaving an entry of a key counts at most five failures if and only if none is recorded on a lock within the window |
| LoginBound.EightFailuresHappen | server.ts:512-554 | the bound is tight: a run of whole logins, back to back, with eight failures of the account in one interval |
| LoginBound.RunTracks | server.ts:512-558 | in every interleaving the stored entry of a key is tied to the times of the failures that found no lock: its count is that of the last ones, and no more than three earlier ones, or four if a failure on a lock began it, reach into its window |
| LoginBound.RushBreaksTheBound | server.ts:2093-2106 | any number of requests of one key that all check before any records: every check is admitted and all their failures fall in one interval |
| LoginSize.SizeBound | server.ts:258-276 | in every interleaving of logins, of whatever outcome, a passkey login that clears and then fails included (server.ts:2773-2778), the store holds at most 19999 entries plus two for each login that may be in flight: 20001 when they come one after another |
| LoginSize.SizeBoundIsReached | server.ts:512-515 | for every number of logins in flight a run from the empty store reaches that bound |
| LoginSize.AnythingMayHappen | server.ts:2093-2235 | a login in flight may fail, clear its keys or end at any moment, and a new one may arrive: the runs leave out no order |
| LoginHistory.SweepIsInvisible | server.ts:511-558 | below capacity, for any interleaved events, the limiter answers every check, after any event and at any later moment, like one that never deletes if and only if no failure meets a lock that has run out within its window |
| LoginHistory.LingeringLockShows | server.ts:536-554 | the first such failure locks the key again where the limiter that never deletes allows it |
| LoginHistory.BackToBackIsAnsweredAlike | server.ts:511-558 | when each failure follows its own admitted check with no other event of the key between, the sweep and lazy deletion are invisible |
| LoginHistory.LiveLockStep | server.ts:536-558 | a live lock is dropped exactly by a clear or by a failure outside its window; any other event keeps it or, as a failure in the window, extends it to its own time plus the lock time |
| LoginHistory.LockHolds | server.ts:512-558 | until a live lock runs out every check of its key is refused in every interleaving, unless one of those two events drops it |
| CredentialsInvariant.RunKeeps | server.ts:2965-3036 | the lock, mark, scope and log invariant holds in every reachable state of every interleaving |
| CredentialsRuns.ResetUsesItsToken | server.ts:2967-2989 | every committed reset is the one that used its token, began before the token expired and ran for the token's tenant |
| CredentialsRuns.TokenWorksOnce | server.ts:2970-2989 | two committed resets never use the same token |
| CredentialsRuns.ResetRetires | server.ts:3012-3034 | every token of the employee that is there when a committed reset begins its token UPDATE is used in the end, and every session that is there when it begins its session UPDATE is revoked |
| CredentialsRuns.RetiredTokenNeverCommits | server.ts:2970-3036 | once a reset has committed, no token of its tenant and employee that was there when its token UPDATE began can commit a reset after it |
| CredentialsStatements.ResetWritesEmployee | server.ts:2998-3010 | a committed reset has locked, and so written, the employee of its token |
| CredentialsProgress.ResetTouchesOwnRows | server.ts:2998-3034 | in every run a reset locks and marks nothing but its token's employee and the tokens and sessions of that employee |
| CredentialsProgress.UnblockedCommits | server.ts:2965-3036 | while nobody else holds a lock, an unused and unexpired token of the tenant does reset the password, a live challenge does back a ceremony, and every other transaction comes to its commit |
| CredentialsProgress.AbortsAnytime | src/lib/background-connections.ts:119-135 | a transaction may abort at any moment, which releases its locks and changes no row, log or audit |
| CredentialsRuns.RunLasts | server.ts:2965-3036 | from any moment of a run to its end, rows, marks, the commit log and finished transactions stay as they are: a mark is written once |
| CredentialsStatements.InsertedRow | server.ts:342-363 | a committed log-in adds a session of its employee that lasts twelve hours, a stored challenge (server.ts:1074-1084) one of five minutes |
| CredentialsStatements.RevokeManyIsExact | server.ts:1995-2009 | a committed bulk revocation ends every unexpired session of the employee that was there when it began but the excepted one, and itself revokes no other |
| CredentialsStatements.RevokeOneIsExact | server.ts:1974-1988 | a committed single revocation ends its session if it is unexpired, in the tenant and the owner's where one is asked for, and no other |
| CredentialsStatements.LogoutIsExact | server.ts:376-425 | a committed log-out ends its session, expired or not, if it is in the tenant, and no other |
| CredentialsStatements.RevocationIsAudited | server.ts:1974-2074 | a committed revocation has left exactly its audit: a single one if it revoked its session, a bulk one with the number of sessions it revoked, for an administrator unless it revoked none of an unknown employee |
| SessionRevocation.SessionsAreConserved | server.ts:1974-2074 | in every run, revoked sessions = single-revoke audits + the sum of the bulk counts + those revoked by password resets |
| SessionRevocation.SingleAuditsAreDistinct | server.ts:1974-1988 | no session gets two single-revoke audits, and each was revoked by the audited transaction |
| SessionRevocation.RunStaysInTenant | server.ts:376-425 | in every run a step changes a row only by marking it, at most once, and marks and inserts only rows of the tenant that its transaction runs for, log-outs included |
| SessionRevocation.CommitConserves | server.ts:2042-2074 | committing a single, bulk, log-out or reset revocation keeps the balance, the administrator's request for an unknown employee included |
| WebAuthnChallenges.ChallengeBacksOneCeremony | server.ts:1087-1116 | under any interleaving no challenge backs two committed ceremonies, and each ceremony has exactly one (sections 7.1 and 7.2 of Web Authentication Level 2) |
| WebAuthnChallenges.AtMostOneExactly | server.ts:1053-1085 | in every interleaving a tenant, employee and ceremony has at most one unused challenge throughout if and only if it starts with at most one and every store that commits has marked all that are unused then |
| WebAuthnChallenges.SerialisedIsCovering | server.ts:1053-1085 | stores that begin only after the one before has ended mark all that are unused when they commit |
| WebAuthnChallenges.AtMostOneUnused | server.ts:1053-1085 | with serialised stores there is at most one unused challenge at any time |
| WebAuthnChallenges.CeremonyUsesLatest | server.ts:1053-1116 | while stores mark all that are unused when they commit, a committed ceremony used the challenge of the last store committed before it and began less than five minutes after that store, or before the first store an unexpired one that was unused at the start |
| CredentialsStatements.CeremonyTakesNewest | server.ts:1087-1116 | a committed ceremony used a challenge that was the newest of the unused and unexpired ones of its tenant, employee and ceremony when its statement began |
| CredentialsProgress.StoreIsExact | server.ts:1053-1072 | a committed store has marked every challenge of its tenant, employee and ceremony that was there when it began, expired or not, and no other row |
| WebAuthnChallenges.OverlappingStoresLeaveTwo | server.ts:1053-1085 | two stores that overlap leave two unused challenges, because the second to commit misses the first |
| Registration.OneRegistrationPerEmail | server.ts:1562-1640 | among any number of concurrent registrations at most one commits per login email, and none for an email that had an account, for every hash, collisions included |
| Registration.RunKeeps | server.ts:1562-1640 | who is past the lock holds it and who is past the check still finds the email free, in every reachable state |
| Registration.FreeEmailRegisters | server.ts:1562-1640 | a registration that finds its lock free can commit exactly if no account has its login email, and then adds this one account |
| Registration.AttemptMayFail | server.ts:1562-1640 | an attempt may fail at any moment before its commit, which frees its lock and adds no account |
| Avatar.AddressNamesFile | server.ts:2298-2361 | in every interleaving of uploads and deletes, crashes between any two steps included, an address of the store names an existing file |
| Avatar.FilesAreAccountedFor | server.ts:2278-2370 | every stored file is referred to, in the hands of an unfinished request, or left by a crash, a failed removal, a failed write or before, and a left-over is neither of the first two |
| Avatar.PreviousHandedOnce | server.ts:2300-2317 | no previous file is handed to two requests for removal |
| Avatar.QuietStoreHasNoWaste | server.ts:2319-2325 | without crashes and failures the store holds exactly the referred files when no request is under way |
| AvatarAddresses.LastCommitDecides | server.ts:2298-2361 | in every run an employee's address is what the last committed request left: the file that this upload wrote, or none after a delete |
| AvatarAddresses.AddressStays | server.ts:2298-2361 | nothing but the commit of a request for the employee changes the address |
| AvatarAddresses.UploadReplaces | server.ts:2278-2325 | where nobody holds the row an upload can run to its end, whatever else is under way: the address names the new file, the previous file is gone, no other file or address is touched |
| AvatarAddresses.DeleteClears | server.ts:2336-2361 | in the same way a delete leaves no address and removes the file |
| AvatarAddresses.ThrownUploadCleansUp | server.ts:2319-2325 | an upload that throws behind its write frees the row and then removes the file it wrote, and no address changes |
| AvatarAddresses.FailsAnytime | server.ts:2278-2370 | every unfinished request may crash, one before its commit may throw, and writes and removals may fail: the runs leave out no failure |
| AvatarLostAck.DanglesExactly | server.ts:2298-2325 | in every run in which commits may lose their acknowledgement, the file that an address names is missing if and only if the upload that put the address there lost its acknowledgement and then removed the file |
| AvatarLostAck.LostAcknowledgementDangles | server.ts:2319-2325 | any upload in its transaction may come to that |
| Authority.QueriesAgree | server.ts:831-858 | request authentication, session refresh and login read the same role names, permissions and company permissions: exactly those reached through an unrevoked, started, unexpired assignment to an active role; company permissions are a subset |
| Authority.RoleJoinsMembers | server.ts:1119-1133 | the rows that the chain of left joins makes of an employee, NULLs included |
| Authority.GroupHasClaims | server.ts:1181-1213 | grouping and DISTINCT aggregation over those rows give the plainly defined sets |
| Authority.QueriesReadOne | server.ts:831-858 | each query reads only the employee it is asked for, by identifier and tenant or by login email, and only one who may sign in |
| Authority.WithTenantsMembers | server.ts:2131-2163 | joining the tenant adds and loses no employee |
| Authority.DuplicatesDoNotMatter | server.ts:1119-1133 | repeated rows in any table change no claim |
| TenantRoles.NormalizeCustomTenantRoles | server.ts:606-640 | the loop returns what the specification says, errors included |
| TenantRoles.NormalizeMeans | server.ts:606-640 | success exactly for at most 20 roles whose trimmed names have at most 100 code units and differ ignoring case; the roles with a name are kept in order, each with its trimmed name, its description trimmed and cut to 500 code units or none if that is empty, and exactly its trimmed non-empty keys, each once, in the order of their first occurrence |
| TenantRoles.NormalizeFailsAtFirst | server.ts:606-625 | a failure names too many roles, or the first role that does not fit and whether its name is too long or taken |
| JsText.TrimIsExact | server.ts:628-634 | trimming drops exactly the white space at both ends |
| JsText.SpacesAre | server.ts:628-634 | white space is that of trim (sections 12.2 and 12.3 of ECMA-262): 25 characters |
| JsText.LengthAdds | server.ts:615 | lengths add up, and that of one character is one code unit or two (`JsText.LengthOfOne`) |
| JsText.PrefixIsExact | server.ts:634 | a cut keeps exactly so many code units from the front, half a character included |
| TenantRoles.NormalizeTwice | server.ts:606-640 | normalising again changes no name and no key, and no description exactly when each was cut cleanly |
| TenantRoles.DescriptionIsStable | server.ts:634 | a description survives a second normalisation exactly when it has at most 500 code units after trimming or its cut does not end in white space |
| TenantRoles.KeysAreStable | server.ts:628-630 | the keys of a normalised role are trimmed, non-empty and distinct, so they normalise to themselves |
| TenantSeeding.TenantTables.Seed | server.ts:642-782 | the tables and the outcome after the statements in order: built-in roles and grants, key check, custom roles up to the first name that the table refuses |
| TenantSeeding.SeedingSucceeds | server.ts:648-752 | seeding succeeds exactly when no missing built-in role finds its system key taken, the catalog has every listed key, each requested custom key is in the catalog and no platform key, and every custom name has at most 100 characters and is not blank; otherwise it fails with the first of these that does not hold |
| TenantSeeding.FreshTenantSucceeds | server.ts:606-752 | seeding a new tenant with normalised roles succeeds exactly when the catalog has the listed keys and the custom keys are in it and off the platform: normalised names always fit |
| TenantSeeding.RefusedNameStopsTheLoop | server.ts:754-765 | a refused name throws with exactly the tables that seeding the roles in front of it gives |
| TenantSeeding.GrantsAreExact | server.ts:648-782 | after seeding any tenant a role has exactly the grants it had, the keys of the custom roles of exactly its name, and by its system key the employee's list, the manager's list, or every catalog key that is not the platform's |
| TenantSeeding.FreshTenantIsExact | server.ts:606-782 | normalise then seed gives each role of a new tenant exactly its default keys (Employee the employee's list, Manager the manager's, HR Admin the catalog without the platform) plus those of the one custom role of that name, and never a platform key |
| TenantSeeding.FreshRolesAreExact | server.ts:648-658 | a new tenant without custom roles has exactly the roles Employee, Manager and HR Admin, active, of the system, with their system keys and descriptions |
| TenantSeeding.RolesAreExact | server.ts:648-765 | a role that was there keeps its system key and state, a custom role that was not is active and not of the system, and the last custom role of a name gives its description |
| TenantSeeding.EmployeesAlone | server.ts:668-716 | which keys only the employee's list has, such as attendance.clock |
| TenantSeeding.ManagersAlone | server.ts:668-716 | which keys only the manager's list has, such as roster.manage |
| TenantSeeding.EmployeesAndManagers | server.ts:668-716 | which keys both lists have |
| TenantSeeding.PlatformKeysStart | server.ts:723-752 | a platform key is one that begins with the nine characters platform. |
| TenantSeeding.FailureWritesNoCustomRole | server.ts:736-752 | a call that throws before the loop has written no custom role and only default grants; the keys it names are exactly the invalid ones |
| TenantSeeding.ReseedingChangesNothing | server.ts:648-782 | seeding again with the same custom roles changes no role and no grant |
| TenantSeeding.SeedKeepsValid | src/db/schema.sql:229-290 | whether it returns or throws, seeding keeps the foreign keys of grants, the limits on names and the uniqueness of system keys |
| Hierarchy.ChainIsCutWalks | scripts/demo-seed-test.ts:45 | the query ends on every finite employee table, and its rows are exactly the manager walks cut at their first repetition, each once |
| Hierarchy.CountDecidesAcyclicity | scripts/demo-seed-test.ts:45 | the count is zero exactly when following managers never comes back to an employee |
| Hierarchy.CountIsExact | scripts/demo-seed-test.ts:45 | the count is the number of manager walks that end at their first repetition |
| Hierarchy.NextRound | scripts/demo-seed-test.ts:45 | one recursive round turns the cut walks of one length into those of the next |
| UriComponent.DecodeUndoesEncode | server.ts:303-313 | decodeURIComponent undoes encodeURIComponent on every string (section 2.1 of RFC 3986, UTF-8) |
| UriComponent.Utf8IsExact | server.ts:309 | octets decode to a character exactly when they are its UTF-8 encoding: no overlong form, surrogate or stray octet passes |
| UriSpelling.DecodeIsExact | server.ts:309 | a text decodes to a string exactly when it spells it: every character as itself, but for the percent sign, or as the escapes of its UTF-8 octets in digits of either case |
| UriSpelling.NothingIsSpelled | server.ts:309-310 | decoding fails exactly on texts that spell no string |
| UriSpelling.EncodeIsExact | server.ts:329 | encoding writes letters, digits and nine marks as themselves and every other character in upper-case escapes, wherever it stands |
| Cookies.FirstMatchDecides | server.ts:303-313 | in every header a browser builds, the first cookie that reads as the name decides, its decoding error included |
| Cookies.AnyHeaderIsRead | server.ts:303-313 | in any header at all the first part that is the name, with or without a value, decides: the cookie is the string that its value spells, and there is none if it spells nothing |
| Cookies.SplitIsExact | server.ts:305-306 | splitting cuts at every mark and loses nothing |
| CookieHeaders.HeaderIsProtected | server.ts:324-331 | the printed header has exactly the directives HttpOnly, SameSite=Lax, Path=/ and Max-Age of twelve hours, and Secure exactly where asked for |
| Cookies.HeaderIsStored | server.ts:324-331 | a browser takes from the printed header exactly the session name and the encoded token (section 5.2 of RFC 6265) |
| CookieHeaders.PairIsTaken | server.ts:324-331 | of any header a browser takes the text before the first semicolon, cut at its first equals sign, without the blanks around name and value (section 5.2 of RFC 6265) |
| Cookies.RoundTripExactly | server.ts:303-331 | among any other cookies, the server reads back every token it prints if and only if no cookie in front reads as the session cookie |
| Cookies.FrontDecides | server.ts:303-313 | behind a cookie that reads as the session cookie a token is read back only if that one holds it |
| Cookies.SessionCookieRoundTrip | server.ts:303-331 | a token is read back from the printed header when no cookie in front reads as the session cookie, whatever stands behind |
| Cookies.LookalikeDecides | server.ts:303-313 | a name with leading white space that browsers keep and the script trims reads as the session cookie |
| ServiceWorker.CacheWorker.OnInstall | public/service-worker.js:17-22 | all assets are stored, or none if one of them did not arrive |
| ServiceWorker.CacheWorker.OnFetch | public/service-worker.js:143-184 | the routing order, and the reply from the runtime cache |
| ServiceWorker.CacheWorker.OnAnswer | public/service-worker.js:82-141 | which cache write an answer starts and what the page gets, network failures included |
| ServiceWorkerRules.RouteIsExact | public/service-worker.js:56-82 | API and profile-image paths of any origin and method are network-only; own GET requests off the development paths are pages by mode, or assets by directory, destination or extension; nothing else is routed |
| ServiceWorkerRules.InterceptsExactly | public/service-worker.js:143-184 | the worker answers exactly these requests, waits for the network with each, and serves no private request or page from a cache at once |
| ServiceWorkerRules.AnswerIsStored | public/service-worker.js:100-141 | an answer reaches the page unchanged and starts a put exactly if it is good and answers a page, as the shell, or an asset, under its own address; a private answer is put nowhere |
| ServiceWorkerRules.FailureIsAnswered | public/service-worker.js:84-116 | without the network a private request gets the offline message, a page the cached shell, or else the offline page, or else an error |
| ServiceWorkerRuns.InstallIsExact | public/service-worker.js:17-22 | an install stores every listed asset under its address if all may be stored, and otherwise nothing |
| ServiceWorkerRuns.ActivationIsExact | public/service-worker.js:24-34 | activation deletes exactly the caches named stanza-static-v or stanza-runtime-v that are not the two of this version and revision, and changes no other |
| ServiceWorkerRuns.CachesStayClean | public/service-worker.js:56-82 | in every run the worker's keys are listed assets or GET requests for static assets of its own origin, never API, profile-image or development paths, every entry is a 2xx answer other than 206, and a cached asset is an answer to a request for that address |
| ServiceWorkerRuns.ServedAssetIsItsOwn | public/service-worker.js:117-141 | what a page gets from the cache for an asset is an earlier ok answer to a request for the same address |
| ServiceWorkerRuns.NewWorkerIsBacked | public/service-worker.js:1-3 | a worker of a new revision starts with what every run theorem assumes, whatever other caches there are |
| ServiceWorkerRuns.EntryIsLastStored | public/service-worker.js:100-141 | in every run an own entry is the last response stored under its key, by an install or a landed write, or the one from before the run |
| ServiceWorkerRuns.ReplyIsLastStored | public/service-worker.js:117-141 | stale while revalidate: in every run the cached reply to an asset's request is the response stored last under its address |
| ServiceWorkerRuns.NextFetchGetsTheAnswer | public/service-worker.js:117-141 | after any run that ends with the landing of an answer, the next request for that address gets this answer |
| ServiceWorkerRuns.RevalidationReplaces | public/service-worker.js:117-141 | from any point of a run, a fetch of an asset, its ok answer and the landing give the next fetch this answer if it can be stored, and the reply from before if not |
| ServiceWorkerRuns.AnyPageBecomesTheShell | public/service-worker.js:100-107 | any page navigated to replaces the shell exactly when its answer is ok and can be stored; an answer that is not ok starts no write |
| ServiceWorkerRuns.OfflineNavigationIsServed | public/service-worker.js:109-114 | after a complete install no run of events leaves an offline navigation without a cached shell |
| ServiceWorkerRuns.StepKeeps | public/service-worker.js:17-184 | every event keeps the origin of all cached responses and of all writes under way |

## Left out

- LoginBound.AtMostEightFailures: failures recorded on a lock, which overlapping requests of one key cause, are not bounded by the code (`LoginBound.RushBreaksTheBound`); failures from before a success are not counted with those after it.
- LoginHistory.SweepIsInvisible: below capacity only; at capacity an unknown key is refused whatever its history.
- WebAuthnChallenges.AtMostOneUnused: needs stores of one key to be serialised, which the code does not do; `WebAuthnChallenges.AtMostOneExactly` has the exact condition.
- Avatar.AddressNamesFile: assumes fresh file names and that a throw means not committed; `AvatarLostAck.DanglesExactly` drops the second.
- SessionRevocation.SessionsAreConserved: other routes that set `revoked_at` or delete sessions (role changes, organisation settings, clean-up) are not part of this model; what `stanza_session_identity` returns for a log-out is any tenant, whose row policy (`src/db/migrations/20261003_runtime_database_role.sql:33-39`) the model applies, and `RevokeMany` stands for revoke-others and revoke-all alike.
- CredentialsRuns.TokenWorksOnce: a token is a row; the tenant that `stanza_reset_tenant` returns is any tenant; that a hash finds at most one row, and the check for protected demo identities, are not modelled.
- TenantRoles.NormalizeMeans: `toLowerCase` is any function; a lone surrogate, also one that a cut leaves, stands as U+FFFD; a null role element is not modelled.
- TenantSeeding.TenantTables.Seed: a role is known by its name instead of a generated identifier; timestamps, other tenants' rows and changes of the catalog between two statements are left out, and so is the caller's rollback after a throw; a name that exceeds its column by spaces only counts as refused.
- UriComponent.DecodeUndoesEncode: strings with lone surrogates, for which the encoder throws, are not representable.
- Cookies.SessionCookieRoundTrip: a browser's expiry, domain, path and Secure rules are left out; the jar is what it decided to send. Cookies without a name, which section 5.2 of RFC 6265 ignores but current browsers send back as a bare value that may itself read as the session cookie, are left out too.
- ServiceWorkerRuns.CachesStayClean: a cache key is a URL; `Vary` headers other than `*`, storage eviction, and a newer worker deleting this one's caches are left out.
- SourceImports.EdgesAreImports: resolving a relative specifier to a path is a parameter; parsing and directory walking are left out.
- Hierarchy.CountDecidesAcyclicity: the table is one tenant's employees with `id` as primary key.
- Date input validation (`isValidDateInput`): calendar arithmetic of the runtime.
- The no-schema fallback queries behind SQL errors 42P01 and 42703.
- The pause of 800 ms in login appears only as the gap in which other events interleave.
- Mail, queues, rate-limiter middleware, Express routing, image processing, password hashing, WebAuthn signatures.
