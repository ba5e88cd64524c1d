# Verified models of the ZenMind official server

This project models the parts of the server where state, time and failure meet, and proves what they are for. It is
plain Dafny 4.11; `dafny verify dfyconfig.toml` checks all of it.

**Update feeds.** An update feed is a named manifest with a public switch, a revision and a history. There are two
catalogs. `SqliteUpdates` keeps every revision in a table and a current revision per feed (`internal/release/update_feeds.go`).
`DirectoryUpdates` keeps a public file, a disabled file and a history sidecar per feed and changes them one atomic write
or removal at a time (`internal/release/directory_updates.go`). A save or an import of the directory catalog is a *plan*
of such steps; a crash or a failing file system leaves a prefix of the plan done, and the field `stepsLeft` says how many
more steps will succeed. The theorems:

* `DirectoryReads`: what is shown of a feed, for every directory: the switch, the manifest and the time of the visible
  file, beside the description, author and revision of the last record.
* `SaveCrashes`: at every crash point of a save the visible document is wholly the old or wholly the new one; a retry
  after a reload is admitted exactly when the feed still reads and the history still fits, and it restores the state of
  an uninterrupted save exactly when the sidecar had not been written yet.
* `DirectoryRuns`: with crashes inside saves and an outside publisher between them, histories only grow, revisions are
  never reused, and a save is refused as a conflict exactly when the loaded document or history is no longer there.
* `ImportLaws`: cut-off imports followed by a complete one end like a single import; nothing that was there is changed.
* `SqliteLaws` and `Migration`: what restarts and saves keep in the database, and that importing any reachable database
  into an empty directory preserves what the public and the Admin see.
* `Bisimulation`: from empty stores both catalogs accept the same saves and show the same feeds.

**Logins.** `Accounts` and `Credentials` are the SQL store (`internal/auth/store.go`), one method per transaction.
`AccountLaws` is about linking identities of several providers to accounts and about display names, and `AccountRuns`
about who becomes administrator, whose password stays, and which account a login lands on. `CodeLaws` shows that the open
email codes of an address form a stack. `SessionRuns` interleaves the steps of the login handlers
(`internal/auth/server.go`) and shows that every session and desktop ticket is paid for by its own credential, spent in
time; `HandlerLaws` shows the other half, that good credentials do log their account in, for exactly as long as the
session says, and that a disabled account gets nothing.

**Around them.** `RateLimiter` is the fixed-window limiter with its garbage collection, `AvatarCache` the double-checked
locking of the avatar proxy with any number of concurrent requests, and `AvatarProgress` its other half: stale pictures
are fetched and every request can end. `RandomCodes` is the rejection sampling of verification codes, `SemVer` the
two-stage version check against the grammar of Semantic Versioning 2.0.0 (sections 2, 9 and 10), and `Patterns` ties the
checks of feed names and email addresses to their regular expressions. `Regexes`, `Text`, `Updates` and `Wrappers` hold
what several modules share.

## Conventions

* Code that changes state is a class whose methods are proved equal to functions on plain values; the laws are lemmas
  about those functions. Functions such as `DirectoryUpdates.Get`, `DirectoryUpdates.Admit` or `SqliteUpdates.Save`
  therefore have no row below: the methods that are proved against them and the lemmas about them do.
* Times are integers in nanoseconds. Random tokens and SHA-256 digests are texts chosen by the caller. Clocks are
  parameters; where a law needs a clock that does not go back it says so.
* JSON and the digest are a record of functions, `Updates.Codec`, with the laws `Lawful`: either layout of a valid
  manifest reads back as it, histories read back, and the digest tells texts apart. The texts are valid UTF-8. The field
  checks of manifest validation other than the version check are the function `wellFormed`.
* The tag of a loaded feed is kept as its three parts (digest, switch, revision).
* `Updates.Fits` says that the indented manifest with its final newline is at most 256 KiB. Validation bounds only the
  compact text, so an accepted save can leave a feed that no longer reads: `SaveShowsItself` gives the exact condition,
  `ValidManifestMayNotShow` a codec that obeys all laws and a save into an empty directory that fails it. The same bound
  decides `RetryIsAdmitted`, `PublicPreserved` and `AdminPreserved`. `Updates.HistoryFits` is the 64 MiB bound of a sidecar.
* The repository's README asks for a reload before a cut-off save is retried. In the code that retry restores the state
  of an uninterrupted save unless the sidecar was already written; then it records the same document once more, under
  the next revision (`RetryConverges`).
* The two catalogs differ in one answer: for a feed that was never saved the directory shows an empty history, SQLite
  says that the feed does not exist (`ReadsAgree`).
* For the limiter the bound proved is 2 * limit - 1 calls per interval of one window, which is one less than the obvious
  2 * limit and is reached; ten tries in fifteen minutes thus give at most 19 during the ten minutes of a code.

## Model

| member | source | states |
|---|---|---|
| `RateLimiter.Limiter.Allow` | internal/auth/request_security.go:28-53 | the decision and the table after a call are those of the collecting limiter, whatever order the table is walked in |
| `RateLimiter.PruningIsTransparent` | internal/auth/request_security.go:35-41 | over every run with a clock that does not go back and windows of at most 30 minutes, deleting old entries never changes a decision |
| `RateLimiter.PruningIsTransparentFrom` | internal/auth/request_security.go:28-53 | the same from any table that lacks only entries too old to matter |
| `RateLimiter.PruningShowsExactly` | internal/auth/request_security.go:35-49 | for any table and call, deletion changes the decision if and only if a full key is refused inside a window longer than 30 minutes |
| `RateLimiter.CallKeepsLaw` | internal/auth/request_security.go:42-52 | every call keeps the window law: admissions lie in their windows, windows are at least one length apart, no window admits more than the limit |
| `RateLimiter.RunsObeyLaw` | internal/auth/request_security.go:28-53 | the admissions of one key in any run over all keys obey the window law |
| `RateLimiter.UnlimitedCallsPass` | internal/auth/request_security.go:29-31 | a call without key, limit or window passes and leaves the table alone |
| `RateLimiter.RefusalsAreEarned` | internal/auth/request_security.go:42-52 | after any run a call is refused only if the last `limit` admissions of its key came less than a window ago |
| `RateLimiter.BurstTakesAWindow` | internal/auth/request_security.go:42-52 | any 2 * limit consecutive admissions take at least one window |
| `RateLimiter.RateBound` | internal/auth/request_security.go:42-52 | any half-open interval of one window admits at most 2 * limit - 1 calls of a key |
| `RateLimiter.RateBoundIsReached` | internal/auth/request_security.go:42-52 | for every limit and window some run reaches that bound |
| `RateLimiter.Spread` | internal/auth/request_security.go:42-52 | admission j comes at least j / limit windows after the first |
| `RateLimiter.LongRunBound` | internal/auth/request_security.go:42-52 | within a time T of the first admitted call at most limit * (T / window + 1) are admitted |
| `RateLimiter.VerifyAttemptsPerCode` | internal/auth/server.go:327-361 | while one code lives at most 19 tries from one address for its email reach the store |
| `RandomCodes.RandomDigits` | internal/auth/server.go:1396-1413 | a code is exactly the first n accepted bytes taken modulo ten, no byte is read past the last of them, and it fails exactly for no length or a source that ends early |
| `RandomCodes.SourcesExact` | internal/auth/server.go:1402-1411 | the listed byte sequences are exactly the accepted ones that spell a code |
| `RandomCodes.UniformCodes` | internal/auth/server.go:1402-1411 | every code of n digits has exactly 25^n accepted byte sequences |
| `SemVer.PatternIsVersion` | internal/release/desktop_updates.go:35 | the regular expression matches exactly the versions of the grammar with leading zeros allowed in identifiers |
| `SemVer.SplitRecoversItems` | internal/release/desktop_updates.go:49 | splitting at dots yields only good identifiers exactly when the text is a dot-separated list of such |
| `SemVer.SplitsFindPrerelease` | internal/release/desktop_updates.go:47-48 | however the pattern cut the text, the two splits return the same prerelease part, also when build metadata contains dashes |
| `SemVer.SecondLookDecides` | internal/release/desktop_updates.go:47-54 | on texts the pattern accepts, the second look passes exactly the grammar's prerelease identifiers |
| `SemVer.VersionCheckIsExact` | internal/release/desktop_updates.go:44-54 | the version check accepts exactly the semantic versions of at most 128 bytes |
| `Patterns.ValidNameIsPattern` | internal/release/update_feeds.go:15-17 | a feed name is valid exactly if the pattern matches it |
| `Patterns.ValidEmailIsPattern` | internal/auth/server.go:238 | an address is valid exactly if it has at most 255 bytes and the pattern matches it |
| `Text.SpacesAre` | internal/auth/store.go:839 | what counts as white space in ASCII |
| `Text.TrimCutsSpaces` | internal/auth/store.go:838-840 | trimming takes white space off both ends and nothing else |
| `Text.NormalizeTwice` | internal/auth/store.go:838-840 | a normalised address is its own normal form |
| `Text.BlankIsOnlyBlanks` | internal/auth/store.go:427 | the SQL test for a blank name finds exactly the names made of blanks |
| `Accounts.Lowest` | internal/auth/store.go:462-467 | the lowest account id with an email, of administrators if asked, or none exactly if there is none |
| `Accounts.RowOf` | internal/auth/store.go:404-408 | the row with a provider and subject, or none exactly if there is none |
| `Accounts.AccountStore.EnsureAdmin` | internal/auth/store.go:263-313 | the configured account becomes an administrator and keeps a password it already has |
| `Accounts.AccountStore.UpsertAuthentikUser` | internal/auth/store.go:365-416 | new tables and result of an Authentik login, error cases included |
| `Accounts.AccountStore.UpsertGoogleUser` | internal/auth/store.go:350-363 | an unverified email changes nothing; otherwise an identity login |
| `Accounts.AccountStore.UpsertEmailCodeUser` | internal/auth/store.go:418-422 | an identity login whose subject is the address |
| `Accounts.AccountStore.UpsertIdentityUser` | internal/auth/store.go:433-548 | new tables and result of an identity login; a refused one rolls back |
| `AccountLaws.PickIsChoice` | internal/auth/store.go:462-467 | the account chosen by email is the lowest administrator with it, else the lowest account, and none only if there is none |
| `AccountLaws.BindSucceeds` | internal/auth/store.go:453-505 | under the invariant the new-user and new-identity inserts meet no unique key, and the identity lands on the right account |
| `AccountLaws.IdentityLogin` | internal/auth/store.go:433-548 | a login fails exactly for a blank subject or malformed email; otherwise it binds the identity, makes a new account ordinary and enabled, leaves rights, passwords and other accounts alone, and keeps the invariant |
| `AccountLaws.LoginProfile` | internal/auth/store.go:425-431 | the account takes the login's email, and its picture if it brings one |
| `AccountLaws.ArrivalName` | internal/auth/store.go:425-431 | the name an accepted login leaves its account with is never blank |
| `AccountLaws.AuthentikLands` | internal/auth/store.go:365-416 | fails exactly for a blank subject or malformed email; lands on the only account with its subject, new and ordinary if there was none, and leaves roles, flags and other accounts |
| `AccountLaws.BootstrapMakesAdmin` | internal/auth/store.go:263-313 | exactly the local account of the address becomes administrator; a password once set stays, and so does every other account |
| `AccountLaws.StepKeepsInv` | internal/auth/store.go:263-548 | every bootstrap and login keeps the invariant and every binding |
| `AccountLaws.RunKeepsInv` | internal/auth/store.go:263-548 | over every interleaving accounts never disappear and a bound identity keeps its account |
| `AccountLaws.IdentityLoginNeverCollides` | internal/auth/store.go:469-502 | in every state reachable from empty tables a well-formed identity login succeeds |
| `AccountLaws.ArrivalOnProfile` | internal/auth/store.go:425-431 | what one login makes of the name of its account, and that role and enabled flag stay |
| `AccountLaws.ProfileFold` | internal/auth/store.go:425-523 | over any run the name is that of the last Google login if any, else the first nonblank one; it is never blank, role and enabled flag never change |
| `AccountRuns.GoogleLoginShows` | internal/auth/store.go:350-363 | an unverified email changes nothing; a verified login binds the Google subject and shows the trimmed name and picture |
| `AccountRuns.EmailCodeLoginShows` | internal/auth/store.go:418-422 | binds the address itself; a name and picture that are there stay |
| `AccountRuns.UnverifiedLoginsDoNothing` | internal/auth/store.go:352-354 | in any run an unverified Google login might as well not happen |
| `AccountRuns.LoginsLast` | internal/auth/store.go:453-461 | a later login of the same identity lands on the same account, whatever happened in between |
| `AccountRuns.OnlyBootstrapMakesAdmins` | internal/auth/store.go:263-548 | in every run from empty tables the administrators are exactly the local accounts, each of an address that a bootstrap named |
| `AccountRuns.BootstrapLasts` | internal/auth/store.go:298-306 | a bootstrapped address stays administrator with the password hash of its first bootstrap |
| `Credentials.NewestOf` | internal/auth/store.go:574-583 | the newest open code of an address, or none exactly if all are consumed |
| `Credentials.CredentialStore.SaveEmailCode` | internal/auth/store.go:550-563 | one more open code |
| `Credentials.CredentialStore.ConsumeEmailCode` | internal/auth/store.go:565-597 | only the newest open code can be consumed, once, before it expires |
| `Credentials.CredentialStore.SaveOAuthRequest` | internal/auth/store.go:599-617 | a request under a new state hash, its fields cut to their columns |
| `Credentials.CredentialStore.ConsumeOAuthRequest` | internal/auth/store.go:619-664 | an unconsumed, unexpired request is marked and returned; otherwise nothing changes |
| `Credentials.CredentialStore.SaveDesktopSsoTicket` | internal/auth/store.go:715-729 | a ticket under a new hash |
| `Credentials.CredentialStore.ConsumeDesktopSsoTicket` | internal/auth/store.go:731-778 | an unconsumed, unexpired ticket is marked and names its account |
| `Credentials.CredentialStore.CreateSession` | internal/auth/store.go:666-682 | a session under a new token hash |
| `Credentials.CredentialStore.FindUserBySession` | internal/auth/store.go:328-348 | the account of an unexpired session if it exists and is enabled |
| `Credentials.CredentialStore.RevokeSession` | internal/auth/store.go:710-713 | the session is gone, the others are not |
| `Credentials.Stored` | internal/auth/store.go:606-613 | fields that fit their columns are stored unchanged, each in its place |
| `CodeLaws.StackOfOpen` | internal/auth/store.go:574-583 | the stack of an address holds exactly its open codes |
| `CodeLaws.SavePushes` | internal/auth/store.go:550-563 | saving a code pushes it on the stack of its address and no other |
| `CodeLaws.ConsumePops` | internal/auth/store.go:565-597 | a try succeeds exactly for the live top of the stack and pops it; a failed try changes nothing; other addresses keep their stacks |
| `CodeLaws.ExpiryRefusalIsFinal` | internal/auth/store.go:584-592 | refused because the newest open code has expired: no open code of the address lives |
| `CodeLaws.OlderOnlyAfterNewer` | internal/auth/store.go:574-592 | a code is accepted only if every newer one of its address has been consumed |
| `CodeLaws.CodesAreStacks` | internal/auth/store.go:550-597 | over any run the table of codes simulates one stack per address |
| `SessionRuns.NextPreserves` | internal/auth/store.go:593-778 | no handler step undoes a consumption or changes what a credential says |
| `SessionRuns.FinishKeepsInv` | internal/auth/server.go:538-561 | the last step of a handler turns its credential into one session, or one ticket for a desktop request |
| `SessionRuns.NextKeepsInv` | internal/auth/server.go:301-759 | every step of every handler keeps sessions and tickets paid by distinct credentials |
| `SessionRuns.RunKeepsInv` | internal/auth/server.go:301-759 | so does every interleaving, with handlers stopping anywhere |
| `SessionRuns.SessionConservation` | internal/auth/server.go:361-759 | in every run sessions and desktop tickets map injectively to credentials consumed strictly before expiry, and consumed ones stay as they are |
| `SessionRuns.RequestsComeBackOnce` | internal/auth/store.go:599-664 | a login request comes back as stored, before it expires and only once, whatever runs in between |
| `SessionRuns.SessionsLetInTheirUsers` | internal/auth/store.go:328-348 | whoever a session lets in is the account of a recorded, paid creation of that session |
| `SessionRuns.LogoutLasts` | internal/auth/store.go:710-713 | after a logout the token lets nobody in until its hash is issued again |
| `HandlerLaws.DisabledAccountsGetNothing` | internal/auth/server.go:373-377 | once a handler finds its account disabled, what it paid with never buys a session or ticket |
| `HandlerLaws.StoppedHandlersGetNothing` | internal/auth/server.go:361-384 | nor after a handler stops for any other reason |
| `HandlerLaws.DisabledTicketsGetNothing` | internal/auth/server.go:727-731 | a ticket exchanged for a disabled account is spent for nothing |
| `HandlerLaws.EnabledAccountIsReady` | internal/auth/server.go:367-379 | a paid handler whose account is found enabled goes on for exactly that account |
| `HandlerLaws.FinishCreatesExactly` | internal/auth/server.go:538-551 | a finishing handler creates exactly one ticket, for a desktop request, or one session, for its account and its expiry |
| `HandlerLaws.SessionLetsInExactly` | internal/auth/store.go:328-348 | whatever runs before its logout, a session lets in its user exactly while it lives and the account is there and enabled |
| `HandlerLaws.ReadyLetsIn` | internal/auth/server.go:740-758 | a ready handler that finishes logs in exactly its account, exactly until the expiry it asked for |
| `HandlerLaws.OtherLoginLetsIn` | internal/auth/server.go:287-291 | so does a password or token login |
| `HandlerLaws.RequestsAcceptedExactly` | internal/auth/store.go:599-664 | the first callback for a login request is accepted, with the request as stored, exactly before it expires, and none after it |
| `HandlerLaws.TicketsAcceptedExactly` | internal/auth/store.go:715-778 | the same for the first exchange of a ticket |
| `HandlerLaws.EmailCodePays` | internal/auth/server.go:349-365 | the last code sent to an address pays for a login exactly when tried right and in time |
| `HandlerLaws.RequestPays` | internal/auth/server.go:498-509 | the first callback for a live request pays for a login, of the kind that was asked for |
| `HandlerLaws.TicketPays` | internal/auth/server.go:719-737 | the first exchange of a live ticket makes its account ready |
| `AvatarCache.UserDirectory.WriteCache` | internal/auth/avatar_proxy.go:235-272 | the directory then holds exactly the new file |
| `AvatarCache.UserDirectory.FindCachedAvatar` | internal/auth/avatar_proxy.go:146-156 | finds a candidate exactly if one is there, in whatever order the extensions are tried |
| `AvatarCache.DecideKeepsInv` | internal/auth/avatar_proxy.go:305-319 | a download starts only when the last cached file has outlived its lifetime |
| `AvatarCache.CleanKeepsInv` | internal/auth/avatar_proxy.go:265-270 | cleaning up leaves exactly the new file |
| `AvatarCache.NextKeepsInv` | internal/auth/avatar_proxy.go:296-339 | every step of every request keeps the locking protocol's invariant |
| `AvatarCache.SingleFlight` | internal/auth/avatar_proxy.go:305-332 | in every run one request at a time is past the lock, at most one file of the version exists when the lock is free, and no download starts while the last cached file is fresh |
| `AvatarCache.FewFetches` | internal/auth/avatar_proxy.go:305-332 | n + 1 cached files take at least n lifetimes |
| `AvatarProgress.EndsFreshOrDownloaded` | internal/auth/avatar_proxy.go:305-319 | in every run a request that ends without a download of its own sees a file younger than its lifetime at that moment |
| `AvatarProgress.StaleCachesAreFetched` | internal/auth/avatar_proxy.go:305-319 | from an empty or stale cache a download has begun by the time any request has ended |
| `AvatarProgress.HolderFetches` | internal/auth/avatar_proxy.go:314-319 | past the lock, finding nothing or only a stale file begins a download |
| `AvatarProgress.FreshIsServed` | internal/auth/avatar_proxy.go:305-309 | with a fresh file there, a request can be served without lock or download |
| `AvatarProgress.WaitingCanRefresh` | internal/auth/avatar_proxy.go:311-328 | a request that waits while nothing is fresh can leave exactly one new file |
| `AvatarProgress.LaterArrivalRefreshes` | internal/auth/avatar_proxy.go:305-328 | once the files have grown stale, a request that then arrives can fetch the picture anew |
| `AvatarProgress.FailuresChangeNothing` | internal/auth/avatar_proxy.go:320-332 | a failed download or rename frees the lock and leaves the cache as it is |
| `AvatarProgress.EveryRequestCanEnd` | internal/auth/avatar_proxy.go:296-339 | in every reachable state every request can come to its end |
| `Updates.NewestFirst` | internal/release/directory_updates.go:199-202 | at most n items, the last one first |
| `Updates.DecodesBack` | internal/release/update_feeds.go:84-96 | a valid manifest in either layout is decoded as itself as long as the layout fits |
| `SqliteUpdates.MaxRevision` | internal/release/update_feeds.go:206-207 | the greatest stored revision, zero for none |
| `SqliteUpdates.FindRow` | internal/release/update_feeds.go:142 | the row a revision names, or none exactly if there is none |
| `SqliteUpdates.FeedsOf` | internal/release/update_feeds.go:172-180 | all rows as feeds, in order, exactly if every one decodes |
| `SqliteUpdates.SQLiteCatalog.EnsureDesktopUpdateSchema` | internal/release/update_feeds.go:44-83 | the migration happens whole or not at all, and not again |
| `SqliteUpdates.SQLiteCatalog.GetUpdateFeed` | internal/release/update_feeds.go:138-143 | the feed of the current row |
| `SqliteUpdates.SQLiteCatalog.GetPublicUpdate` | internal/release/update_feeds.go:144-162 | the manifest of an enabled row; a disabled row is not found whatever it holds |
| `SqliteUpdates.SQLiteCatalog.ScanFeeds` | internal/release/update_feeds.go:172-180 | the scan loop returns all rows or the first failure |
| `SqliteUpdates.SQLiteCatalog.UpdateFeedHistory` | internal/release/update_feeds.go:163-181 | the newest twenty rows as feeds |
| `SqliteUpdates.SQLiteCatalog.SaveUpdateFeed` | internal/release/update_feeds.go:182-223 | new tables and result of a save, every refusal included |
| `SqliteLaws.InsertsExactly` | internal/release/update_feeds.go:52 | a row goes to its place in primary-key order unless its revision is already there |
| `SqliteLaws.ReadsExactly` | internal/release/update_feeds.go:138-167 | what is read of a feed: nothing of an improper or unknown one, otherwise its current row, and to the public only an enabled one |
| `SqliteLaws.SaveAcceptsExactly` | internal/release/update_feeds.go:183-205 | what a save takes, and which error it gives otherwise, in terms of the request alone |
| `SqliteLaws.InsertAtEnd` | internal/release/update_feeds.go:206-214 | a row above the maximum is new, is inserted last and is then the one found |
| `SqliteLaws.MigrationKeepsInv` | internal/release/update_feeds.go:63-81 | migration from sound older tables keeps the invariant and every stored row |
| `SqliteLaws.MigrationKeepsReleases` | internal/release/update_feeds.go:68-76 | the first start keeps every older release in order under the public name and shows the current one |
| `SqliteLaws.CurrentIsShown` | internal/release/update_feeds.go:144-162 | the public gets the manifest of whichever ordered row is current, if it is enabled |
| `SqliteLaws.SaveAppends` | internal/release/update_feeds.go:198-222 | a save succeeds exactly on a proper request on the current revision; it appends one row with a fresh revision and makes it current |
| `SqliteLaws.SaveKeepsInv` | internal/release/update_feeds.go:182-223 | a save keeps the invariant and every stored row |
| `SqliteLaws.RunKeepsInv` | internal/release/update_feeds.go:44-223 | any restarts and saves do |
| `SqliteLaws.RevisionIntegrity` | internal/release/update_feeds.go:44-223 | in every reachable state the current revision of every feed is stored, the next revision is free, another restart changes nothing, and stored rows never change |
| `DirectoryUpdates.DirectoryUpdateCatalog.Take` | internal/release/directory_updates.go:81-100 | a file step happens wholly or not at all |
| `DirectoryUpdates.DirectoryUpdateCatalog.GetPublicJson` | internal/release/directory_updates.go:101-107 | the public file byte for byte |
| `DirectoryUpdates.DirectoryUpdateCatalog.GetPublicUpdate` | internal/release/directory_updates.go:108-114 | the manifest in the public file |
| `DirectoryUpdates.DirectoryUpdateCatalog.GetUpdateFeed` | internal/release/directory_updates.go:127-157 | the public file or else the disabled one, with what the history's last record says |
| `DirectoryUpdates.DirectoryUpdateCatalog.UpdateFeedHistory` | internal/release/directory_updates.go:191-204 | the newest twenty records, newest first |
| `DirectoryUpdates.DirectoryUpdateCatalog.SaveUpdateFeed` | internal/release/directory_updates.go:205-258 | a refused save changes nothing; an admitted one leaves the prefix of its three steps that the file system allowed, and reports the feed as it then reads |
| `DirectoryUpdates.DirectoryUpdateCatalog.ImportItem` | internal/release/directory_updates.go:270-326 | one feed's steps, decided on the directory as it is at that feed's turn |
| `DirectoryUpdates.DirectoryUpdateCatalog.ImportItems` | internal/release/directory_updates.go:270-326 | the loop carries out the plan made from the directory at the start, as far as the file system allows |
| `DirectoryUpdates.DirectoryUpdateCatalog.ImportLegacy` | internal/release/directory_updates.go:259-328 | nothing once the marker exists; otherwise every feed and then the marker, cut off anywhere |
| `DirectoryUpdates.ItemUnmoved` | internal/release/directory_updates.go:294-309 | what was imported before does not change what a feed's own import does |
| `DirectoryUpdates.OneMoreItem` | internal/release/directory_updates.go:270-326 | a cut-off inside a feed is a cut-off of the whole plan |
| `DirectoryReads.GetReadsVisible` | internal/release/directory_updates.go:127-157 | for every directory when a feed reads, and that switch, manifest and time are the visible file's, and description, author and revision the last record's, or empty before the first |
| `DirectoryReads.PublicJsonExactly` | internal/release/directory_updates.go:101-107 | the public gets exactly a public file with a proper name that is JSON and fits, byte for byte |
| `DirectoryReads.PublicExactly` | internal/release/directory_updates.go:108-114 | the public manifest is the valid one in the public file, or there is none |
| `DirectoryReads.HistoryExactly` | internal/release/directory_updates.go:115-126 | which sidecars read as which histories, and that the newest twenty are shown |
| `SaveCrashes.SaveIsAtomic` | internal/release/directory_updates.go:243-256 | at every crash point the visible bytes and switch are wholly old or wholly new, they change at one step, and no other feed is touched |
| `SaveCrashes.PublicIsAtomic` | internal/release/directory_updates.go:243-256 | what the public gets at every crash point; a feed that stays public never shows a not-found gap |
| `SaveCrashes.GetAfter` | internal/release/directory_updates.go:127-157 | what Admin reads after each step of a save: the old feed, or the saved text with its own switch and time beside the record there is so far |
| `SaveCrashes.AdmitsExactly` | internal/release/directory_updates.go:206-237 | what a save takes in terms of the request, the loaded pair and the limits |
| `SaveCrashes.RetryIsAdmitted` | internal/release/directory_updates.go:214-242 | after a crash at any step, reloading and saving the same input is admitted exactly if the document is old or fits, and the history fits |
| `SaveCrashes.RetryConverges` | internal/release/directory_updates.go:214-257 | the retry ends in the state of one uninterrupted save, with the next revision once and one file left, if and only if the sidecar had not been written |
| `SaveCrashes.SaveShowsItself` | internal/release/directory_updates.go:238-257 | a complete save reads back as what was saved if and only if the indented text fits; otherwise the feed no longer reads and refuses every later save |
| `SaveCrashes.ValidManifestMayNotShow` | internal/release/desktop_updates.go:92-95 | the size check on the compact text does not prevent that: a concrete codec and save |
| `DirectoryRuns.StepContinues` | internal/release/directory_updates.go:221-256 | every save, cut off or not, and every outside change keeps all histories as beginnings of the later ones |
| `DirectoryRuns.HistoriesOnlyGrow` | internal/release/directory_updates.go:221-256 | so does every run; histories stay readable and strictly increasing |
| `DirectoryRuns.RevisionsAreNeverReused` | internal/release/directory_updates.go:225-230 | a save after any run takes a revision above all earlier ones, also after the files were deleted and made again |
| `DirectoryRuns.EchoTells` | internal/release/directory_updates.go:155 | two loads give the same revision and tag exactly if they saw the same document and last revision |
| `DirectoryRuns.ConflictExactlyWhenChanged` | internal/release/directory_updates.go:214-220 | with anything happening between load and save, the save is refused as stale exactly if the loaded document or history is no longer there |
| `DirectoryRuns.AdmittedSawItsDocument` | internal/release/directory_updates.go:214-220 | an admitted save saw exactly the document its pair names |
| `ImportLaws.ItemStepsReadable` | internal/release/directory_updates.go:271-293 | a feed is imported exactly if it and its history decode, and otherwise with the error of the first that does not |
| `ImportLaws.OwnSteps` | internal/release/directory_updates.go:270-326 | stopping anywhere in an import is, for each feed, stopping inside that feed's own steps |
| `ImportLaws.StopsBetween` | internal/release/directory_updates.go:294-325 | then each feed is untouched, has its sidecar, or is filled in; a finished import has filled in every listed feed |
| `ImportLaws.CompletesExactlyWhen` | internal/release/directory_updates.go:266-293 | an import can finish exactly if every listed feed and its history decode |
| `ImportLaws.StartGoesOn` | internal/release/directory_updates.go:259-328 | the marker is set only with every feed filled in |
| `ImportLaws.MarkerEndsImports` | internal/release/directory_updates.go:260-265 | with the marker no later start changes anything, so deleted files stay deleted |
| `ImportLaws.StartsGoOn` | internal/release/directory_updates.go:259-328 | any number of cut-off imports leave every feed on its way |
| `ImportLaws.ImportsConverge` | internal/release/directory_updates.go:259-328 | cut-off imports and then a complete one give the texts and the marker of a single import |
| `ImportLaws.ImportsKeepWhatIsThere` | internal/release/directory_updates.go:294-325 | no number of imports changes a file or sidecar that was there |
| `Migration.SavedFeedsRead` | internal/release/directory_updates.go:271-293 | every feed made by saves alone can be imported |
| `Migration.NewestSpeaks` | internal/release/directory_updates.go:148-154 | the newest row has the description and author of the current one, also when that one is below the maximum |
| `Migration.ImportedHistory` | internal/release/directory_updates.go:275-303 | the whole history is kept, and so is the shown part |
| `Migration.PublicPreserved` | internal/release/directory_updates.go:309-320 | the public result stays the same exactly if the feed is disabled or its indented text fits |
| `Migration.AdminPreserved` | internal/release/directory_updates.go:127-157 | the imported feed reads exactly if text and history fit, and then keeps everything but tag, time and revision, which becomes the maximum |
| `Migration.MigrationPreservesMeaning` | internal/release/directory_updates.go:259-328 | all of this for every feed of every reachable database |
| `Bisimulation.ReadsAgree` | internal/release/update_feeds.go:138-181 | stores that hold the same feed give the same feed, public result and history, and where they differ |
| `Bisimulation.AdmitsExactlyWhen` | internal/release/directory_updates.go:205-237 | the directory admits a save exactly if SQLite accepts it, the tag is right and the history fits, and otherwise refuses for the same reason |
| `Bisimulation.SaveKeepsHolding` | internal/release/directory_updates.go:221-257 | a save both accept gives both the same longer history |
| `Bisimulation.RevisionNamesDocument` | internal/release/directory_updates.go:218 | a revision names one document for good, so an echoed pair with the current revision has the current tag |
| `Bisimulation.AnswersAgree` | internal/release/update_feeds.go:198-205 | an echoed save is admitted by the directory exactly if SQLite accepts it |
| `Bisimulation.RunsAgree` | internal/release/directory_updates.go:205-258 | at every point of a run both stores hold the same feeds and have lost nothing |
| `Bisimulation.CatalogsAgree` | internal/release/update_feeds.go:36-42 | over every run of echoed saves within the file limits both catalogs give the same answers and end showing the same feeds, public documents and histories |

## Left out

- `AvatarCache.UserDirectory.WriteCache`: file errors and subdirectories; removing old files is taken to succeed, as the code ignores failures.
- `AvatarCache.SingleFlight`: one avatar version at a time; locks are per version while cleaning up is per user, so two versions at once are not covered. Nor is a crash between rename and cleanup.
- `SaveCrashes.RetryConverges`: both attempts are saves of one process; outside file changes that land inside a running save are not modelled, as the repository's README excludes them.
- `Bisimulation.CatalogsAgree`: times and tags are not compared, since the catalogs take them from different places.
- `ImportLaws.ImportsConverge`: file times differ between runs and are not compared.
- `Accounts.AccountStore.UpsertIdentityUser`: column widths, collation, trimming inside SQL beyond blanks, and rows from before the identity table; texts are ASCII.
- `Accounts.AccountStore.EnsureAdmin`: the database's last-insert-id rules; the row is found by its unique key.
- `CodeLaws.CodesAreStacks`: the expiry and the creation time of a code come from the handler's and the store's clock; they are taken to be one clock.
- Listing feeds: an import gets the names of the listed feeds in any order, each once.
- The directory's own list of feeds, non-regular files, permissions, temporary files and syncing.
- The nil limiter, which lets everything through, and concurrent callers of one limiter, which a mutex serialises.
- The fields of a manifest other than the version: product, time, notes, artifacts and their URLs.
- HTTP: cookies, JSON bodies, origins, redirects, request addresses, the login log and last-login times.
- Google OIDC, Authentik, SMTP, RSA and JWT signing, bcrypt, SHA-256 and random tokens.
- The download of an avatar: redirects, content types and sizes; it succeeds with some extension or fails.
- Lost or repeated SQL transactions, isolation anomalies and database errors other than unique keys.
- The in-memory test store, the market proxy, configuration, `releasectl`, installers and download counters.
