# ScopeHarbor: a verified model of its protocols and bounded algorithms

ScopeHarbor runs authorised scans of web targets and repositories. This project models
the parts of it whose correctness depends on state shared by several writers, or on exact
bounds, and proves what they promise. `dafny verify dfyconfig.toml` checks everything.

| file | what it models |
|---|---|
| `ScanRows.dfy`, `LifecycleSystem.dfy` | one scan row and its lease-guarded writes; workers, renewal threads, recovery sweeps and cancellers as a transition system over a scan table |
| `FindingManagement.dfy` | materialised finding statuses, suppression rules that expire silently, and three independent read paths |
| `TargetUrl.dfy` | target URLs as texts: stripping, splitting, normalising, and normalising again |
| `Crawler.dfy`, `CrawlTargets.dfy` | the depth-bounded breadth-first crawl, as a loop over a queue and as a graph, and the crawl over target URLs |
| `Authorization.dfy` | auth profiles, targets and scans, changed together by the API |
| `Utf8.dfy`, `Base64.dfy`, `PrefixCodes.dfy` | the text encodings of the relay, the cursors, the capabilities and the redaction |
| `RelayProtocol.dfy`, `RelayHeaders.dfy`, `RelayEnvelope.dfy`, `EnvelopeReadsBack.dfy`, `HttpClient.dfy` | the relay's size limits from the response bytes to the JSON envelope, why the envelope can be read back, and the client's redirect loop |
| `RelayExchange.dfy` | a fetch through the relay from end to end, from the request to what the worker receives |
| `Allowlist.dfy` | scope paths, policy uniqueness and URL matching |
| `Pagination.dfy` | cursors, pages, and the client loop over a table that changes |
| `BestPerKey.dfy`, `Risk.dfy` | deduplication and scoring of findings |
| `Staging.dfy` | the repository copy with an explicit stack |
| `RateLimit.dfy`, `ReplayGuard.dfy` | the sliding-window limiter with its pruning, and one-time capabilities |
| `Markdown.dfy` | the fenced block and the inline escapes of reports, with readers for both |

The source's loops over mutable state are methods and classes here. Each such method is
tied to a function of the old state, and the lemmas are about those functions and about
runs of them. A transaction is one step; a lock is what makes it one.

Several intended properties hold only under a condition, and the model says which:

- Lease fencing is switched off for a job that reads a null owner, which happens when its
  lease is recovered between the claim and the start of the job. Such a run exists, and
  it revives an ended scan exactly when no flag, deadline or cancellation stops it
  (`NullCaptureRevivesScan`). The guarantees are stated per
  scan: such a job takes them from its own scan and from no other. The joint invariant of
  `Authorization.dfy` takes it as given that a terminal scan is never written again, so it
  presumes runs in which every scan is fenced.
- A finding is shown unsuppressed although a rule applies exactly when the rule recorded
  for it ran out while an older one still applies (`ShownSuppressedMeansRule`).
- Normalising a normalised URL gives it back exactly when its text does not end in a blank
  and is not too long (`TargetUrl.NormalizeAgain`). Such a text comes only from an empty
  fragment or an empty query behind a blank (`BlankNeedsAMark`).
- The client normalises a text once more before it requests it, so the crawl is judged by
  the URLs it requests. Through the relay it is always a breadth-first search
  (`RelayedCrawlIsSearch`). Without the relay it is one unless the start URL's query is
  nothing but blanks and its path ends in one, and such a start has a site of which a page
  is missed (`DirectCrawlIsSearch`, `CrawlIsSearchIff`): it is called as "/a ? " and requests
  "/a ", a link "/a ? # " on its page is dropped as seen, and "/a" is requested in time
  exactly when another link leads there (`ClashingStartMissesALink`).
- A URL is requested at most once if no link ends in an empty fragment, and the start in no
  empty fragment or query (`PlainCrawlRequestsOnce`). Links "/a ? # " and "/a" on the start
  page make the crawl request "/a" twice (`BothFormsAreRequested`).
- The relay can answer with a URL that its explicit port made too long, which the worker
  refuses; the size of the document is never what makes it refuse (`ReceivedIffPasses`,
  `UrlArrives`).
- A rate-limit entry carries the start of its transaction, the decision the later time at
  which the lock was obtained. With a lag the window that is guaranteed is shorter by that
  lag, and by no less (`WindowGrantsAtMost`, `LongerWindowHoldsMore`).
- Pruning changes no decision as long as it keeps the longest window, and can free a used
  limit otherwise (`PruningChangesNothing`, `PruningTooSoon`).
- A further finding never lowers a scan's score when its key is new; under a known key it
  can (`FreshKeyNeverLowers`, `KnownKeyCanLower`).
- The replay guard's guarantee needs a clock that does not go back in lock order
  (`NoReplay`, `ReplayWhenClockGoesBack`).
- A fenced block gives its value back exactly when the value has no carriage return; in
  every case the block ends at its own closing fence (`FencedBlockIsExact`).
- The client that follows cursors reads at most twenty thousand rows (`ClientReadsUpTo`).

## Model

| member | source | states |
|---|---|---|
| ScanRows.ScanRecord.LockForOwnedWrite | backend/app/scans/lifecycle.py:834-858 | a write passes exactly when no owner was captured, or the row names that owner in a leased status with a lease that has not run out |
| ScanRows.ScanRecord.UpdateProgress | backend/app/scans/lifecycle.py:656-686 | the row after a progress write: status, progress, start kept or set, lease cleared on completion and otherwise extended; nothing changes when ownership is lost |
| ScanRows.ScanRecord.Claim | backend/app/scans/lifecycle.py:79-93 | a claimed row is leased to the worker, validating at 5 percent, with one more attempt |
| ScanRows.ScanRecord.RenewLease | backend/app/scans/lifecycle.py:119-146 | renewal succeeds exactly for the present owner of an unexpired lease and changes only the lease times |
| ScanRows.ScanRecord.MarkFailedCode | backend/app/scans/lifecycle.py:779-799 | failing keeps progress below 100, records the code, ends the lease; refused without ownership |
| ScanRows.ScanRecord.MarkCancelled | backend/app/scans/lifecycle.py:724-743 | cancelling keeps progress below 100, clears the error, ends the lease; refused without ownership |
| ScanRows.ScanRecord.RequestCancel | backend/app/api/scans.py:113-161 | a terminal scan refuses, a second request changes nothing, a queued scan ends at once, a leased one is only marked |
| ScanRows.ScanRecord.Checkpoint | backend/app/scans/lifecycle.py:689-721 | the outcome in its order of precedence (lost lease, deadline, cancellation), and that only an honoured cancellation writes the row |
| ScanRows.ExecutionMonitor.RunOnce | backend/worker/main.py:89-118 | the lost-lease flag is set by the first renewal that fails or is interrupted, also after its commit, and is never cleared |
| ScanRows.ScanTable.ClaimNextQueued | backend/app/scans/lifecycle.py:64-93 | the scan claimed is an oldest queued one and all others are untouched; otherwise only a queued scan with a pending cancellation may have been cancelled |
| ScanRows.ScanTable.SelectStale | backend/app/scans/lifecycle.py:96-113 | exactly the leased rows whose lease has run out, each once |
| ScanRows.ScanTable.RecoverStaleLeases | backend/app/scans/lifecycle.py:96-116 | with nothing interleaved, exactly the stale rows fail as interrupted, and their number is returned |
| ScanRows.OwnedExcludesStale | backend/app/scans/lifecycle.py:96-146 | at every instant a leased row is either writable by its owner or recoverable, never both and never neither |
| ScanRows.TerminalRowWritableIffUnfenced | backend/app/scans/lifecycle.py:834-858 | a terminal row can be written exactly by a job that captured no owner |
| LifecycleSystem.ProgramShape | backend/app/scans/lifecycle.py:149-541 | every plan of writes and checkpoints moves progress and status forward, never past 85 before the end, and ends with a checkpoint followed by the only completing write; what it writes is stated by LifecycleSystem.CompletedScansAreWritten and LifecycleSystem.EffectsAreInTheirTime |
| LifecycleSystem.StepKeepsInv | backend/app/scans/lifecycle.py:64-146 | each transaction of any worker, renewal thread, sweep or canceller keeps a scan's invariant over row, job and sweeps, moves its row only forward, and writes effects only under an unexpired lease, unless it is a start of a job of this scan that captures no owner |
| LifecycleSystem.RunKeepsInv | backend/worker/main.py:133-168 | the invariant of a scan holds after any interleaving in which no job of this scan captured a null owner, whatever jobs of other scans did |
| LifecycleSystem.ReachableRows | backend/app/scans/lifecycle.py:64-93 | the row of every scan that is fenced in a run: claimed at most once, lease fields exactly while leased, no pending cancellation while queued, progress 100 exactly on success |
| LifecycleSystem.RowsOnlyMoveForward | backend/app/scans/lifecycle.py:656-799 | a terminal status is never left, and status, progress, attempts, start and cancellation never go back, over any continuation |
| LifecycleSystem.QueuedIsUntouched | backend/app/scans/lifecycle.py:74-77 | a queued scan has no pending cancellation, no job and no sweep, so the cancel branch of claiming is never taken |
| LifecycleSystem.FencingStep | backend/app/scans/lifecycle.py:96-146 | one step after the lease ran out: no renewal, no move, no effect, at most a failure by recovery |
| LifecycleSystem.LeaseFencing | backend/app/scans/lifecycle.py:834-858 | once a scan's lease has run out, no later run in which no job of this scan captures a null owner renews it, moves the scan or adds an effect for it; the only new status is failed as interrupted |
| LifecycleSystem.RecoveryWritesAreSafe | backend/app/scans/lifecycle.py:96-116 | whatever happens between selecting and writing, each row a sweep still has to write is expired or already failed, never completed or cancelled |
| LifecycleSystem.CheckpointFailureIsSticky | backend/app/scans/lifecycle.py:689-721 | after one checkpoint of a job has raised, no later checkpoint of it passes, even if a tool swallowed the first |
| LifecycleSystem.DoomedJobNeverCompletes | backend/app/scans/lifecycle.py:149-541 | a job with a lost lease, a passed deadline or a pending cancellation before its last checkpoint never completes its scan |
| LifecycleSystem.FailedCheckpointNeverCompletes | backend/app/scanner/crawler.py:62-66 | a job in which any checkpoint raised never completes its scan |
| LifecycleSystem.CancelledInTimeNeverCompletes | backend/app/api/scans.py:113-161 | a cancellation requested before the last checkpoint, also before the job began, excludes completion |
| LifecycleSystem.FailedBeforeStartIsReachable | backend/app/scans/lifecycle.py:157-157 | a fenced run leads to a job that has not begun and whose scan recovery has already failed |
| LifecycleSystem.NullCaptureRevivesScan | backend/app/scans/lifecycle.py:157-435 | in every state of a fenced scan, a start that captures a null owner finds the scan ended, and two steps take it back to validating exactly when no flag, deadline or cancellation is in the way |
| LifecycleSystem.CompletedScansAreWritten | backend/app/scans/lifecycle.py:369-541 | after every run in which a scan is fenced, what was written for it is a start of receipts, findings, risk, in this order and each once; a scan that has succeeded has all three |
| LifecycleSystem.EffectsAreInTheirTime | backend/app/scans/lifecycle.py:204-510 | receipts are written while the scan is shown as running at the percentage of its last stage, findings and risk while it is shown as normalising at 85 percent |
| LifecycleSystem.LastGate | backend/app/scans/lifecycle.py:368-492 | in every plan a checkpoint stands behind all tools and before the first write |
| LifecycleSystem.CancelledBeforePersistingWritesNothing | backend/app/scans/lifecycle.py:689-721 | once a cancellation is requested while that checkpoint is still ahead, no later step writes anything for the scan |
| LifecycleSystem.PunctualScanIsNeverStale | backend/app/scans/lifecycle.py:119-146 | a scan whose committed renewals come no further apart than the lease is never stale and never selected by a recovery |
| LifecycleSystem.TransitionsAreStamped | backend/app/scans/lifecycle.py:79-799 | a step stamps the time on what it begins, ends or asks to end, claims for the worker with a full lease, and fails a scan with the interruption code of a recovery or the code of its job |
| LifecycleSystem.FailureHasAReason | backend/app/scans/lifecycle.py:689-721 | a job comes to fail with the code of its tool, or with the deadline code because the deadline has passed |
| FindingManagement.ActiveRule | backend/app/finding_management.py:116-137 | the rule found applies and no newer one does; none is found exactly when none applies |
| FindingManagement.FindingStore.ActiveSuppression | backend/app/finding_management.py:116-137 | the loop that skips inactive and filtered rules finds the newest applicable rule |
| FindingManagement.FindingStore.SyncOccurrence | backend/app/finding_management.py:140-147 | one finding's stored status is that of its newest applicable rule, or else its tracked status, created when missing |
| FindingManagement.FindingStore.SyncEach | backend/app/api/findings.py:250-315 | syncing findings one by one is syncing them together, in any order |
| FindingManagement.FindingStore.PersistFinding | backend/app/finding_management.py:110-113 | a new finding is stored with a synced status and nothing else changes |
| FindingManagement.FindingStore.UpdateFindingLifecycle | backend/app/api/findings.py:171-247 | a lifecycle update reaches every finding with the same subject and key: each of them is shown with the status given unless a rule suppresses it; an unknown finding changes nothing |
| FindingManagement.FindingStore.CreateSuppressionRule | backend/app/api/findings.py:250-315 | a new rule re-syncs every finding of its subject |
| FindingManagement.FindingStore.RevokeSuppressionRule | backend/app/api/findings.py:339-386 | revoking re-syncs every finding of the subject, and no finding is shown suppressed by that rule at any time after; revoking again changes nothing |
| FindingManagement.BatchRead | backend/app/api/findings.py:885-970 | the batched lookup shows for each finding what the single read shows, and omits only findings that read as open |
| FindingManagement.SyncOneMore | backend/app/finding_management.py:140-147 | a sync of one more finding after the others equals one sync of all |
| FindingManagement.StepKeepsInv | backend/app/finding_management.py:140-147 | every operation and the passing of time keep: stored suppression names a matching rule that no newer applicable rule overtakes, stored unsuppressed means none applies |
| FindingManagement.RunKeepsInv | backend/app/finding_management.py:140-147 | the same over any run |
| FindingManagement.ReadPathsAgree | backend/app/api/findings.py:669-683 | after any run the SQL expressions give the lifecycle and the flag of the single read |
| FindingManagement.ShownSuppressedMeansRule | backend/app/finding_management.py:150-210 | a finding shown suppressed has an active matching rule; the converse holds exactly when it has not drifted |
| FindingManagement.ShownLifecycleSuppressed | backend/app/finding_management.py:150-199 | the lifecycle reads suppressed exactly when the flag is shown or the tracked status was set to it by hand |
| FindingManagement.SuppressedAfterWrite | backend/app/finding_management.py:140-147 | right after an operation, each finding it synced is suppressed exactly when some rule applies |
| FindingManagement.DriftExample | backend/app/finding_management.py:157-180 | a run in which a rule applies and the finding is shown unsuppressed |
| FindingManagement.ShownIsGiven | backend/app/api/findings.py:171-247 | what a reader sees after any run, from the calls alone: the finding first stored under the id; if it is not shown suppressed, the status last given to a known finding of its key, or open; if it is, a rule that was created for it and neither revoked nor expired |
| FindingManagement.RevokedRuleIsNeverShown | backend/app/api/findings.py:339-386 | after the revocation of an existing rule no state of any run shows a finding suppressed by it |
| Crawler.LinkEntries | backend/app/scanner/crawler.py:83-99 | the entries queued for a page are exactly its same-origin links not seen before, one deeper; that they stand in the order of the page is what Crawler.CrawlIsDetermined needs |
| Crawler.CrawlSite | backend/app/scanner/crawler.py:34-101 | the loop makes the calls of the crawl: every text once, in order of depth and of the links, within the bound and the page cap, and each request lies as many hops away as its call is deep; it returns the fetched pages in the order of the calls, and the error of every failing fetch in order; the loop ends although failures do not count as pages |
| Crawler.CrawlIsSearch | backend/app/scanner/crawler.py:48-101 | if the called texts settle (taking one up again requests what fetching it requests), whatever is nearer is requested before any deeper call, and a crawl that neither cap nor link has ended misses nothing within the bound |
| Crawler.Frontier | backend/app/scanner/crawler.py:48-99 | whatever is within k hops was requested, or an entry no deeper than k is still queued |
| Crawler.PopIsNearest | backend/app/scanner/crawler.py:51-60 | when an entry is popped, everything at a smaller distance has been requested |
| Crawler.CrawlIsDetermined | backend/app/scanner/crawler.py:48-101 | the calls of a crawl, capped or not, are the one list that begins at the start and always calls next the link that comes first, by its page's call and its place on that page, of those whose text was not called, up to the cap, a link that cannot be joined, or the last link |
| Crawler.LaterCallsHaveLaterLinks | backend/app/scanner/crawler.py:83-99 | the link of a call is the first that leads to its text, and of two calls the later has the later link |
| Crawler.SettlingLinksAreSearched | backend/app/scanner/crawler.py:48-101 | the search property under a condition on the start URL and on the links of all pages |
| Crawler.OfferIsTakenUp | backend/app/scanner/crawler.py:83-99 | a finished crawl calls every offered link that no earlier call has the text of, at most one deeper, whatever settles |
| Crawler.UnsettledStartMissesALink | backend/app/scanner/crawler.py:41-99 | for every start that does not settle and whose page links to its text, among whatever other links: what that link leads to is one hop away, and is requested in time exactly when another link of the page leads there |
| Crawler.TwoFormsAreRequestedTwice | backend/app/scanner/crawler.py:57-63 | two offers that are taken up as different texts for one URL make a finished crawl request it twice |
| CrawlTargets.DirectCrawlIsSearch | backend/app/scanner/crawler.py:34-101 | with the normaliser of target URLs and the client's own, for every site: the crawl is the search unless the start URL clashes |
| CrawlTargets.RelayedCrawlIsSearch | backend/app/scanner/http_client.py:146-175 | through the relay, which normalises once more, it is the search for every start URL and every site |
| CrawlTargets.ClashingStartMissesALink | backend/app/scanner/http_client.py:85-105 | a start that clashes, and a link to it with a blank fragment on its page: the link is dropped, and what it leads to is requested in time exactly when another link leads there |
| CrawlTargets.CrawlIsSearchIff | backend/app/scanner/crawler.py:34-101 | the crawl is the search on every site exactly when the start does not clash |
| CrawlTargets.ClashingStartExists | backend/app/security/target_url.py:42-80 | for every plain path name there is such a start |
| CrawlTargets.PlainCrawlRequestsOnce | backend/app/scanner/http_client.py:247-250 | without empty fragments and without an empty query at the end of the start, no URL is requested twice |
| CrawlTargets.BothFormsAreRequested | backend/app/scanner/crawler.py:83-99 | a start page with links to both forms of such a URL, among whatever other links: a finished crawl requests it twice |
| Authorization.Store.Rotate | backend/app/api/auth_profiles.py:102-139 | rotation replaces the secret of an own, unrevoked profile that no live scan uses, and touches nothing else; otherwise nothing changes |
| Authorization.Store.Revoke | backend/app/api/auth_profiles.py:142-174 | revocation removes the secret and detaches every target of the workspace; revoking again changes nothing |
| Authorization.Store.InUse | backend/app/api/auth_profiles.py:188-204 | whether a live scan of the workspace names the profile |
| Authorization.Store.HasActiveScan | backend/app/api/targets.py:384-432 | whether a live scan of the workspace names the target |
| Authorization.Store.AddTarget | backend/app/api/targets.py:75-123 | a target is created with permission and with no profile but an own, unrevoked one |
| Authorization.Store.Attach | backend/app/api/targets.py:272-362 | attaching is refused when the profile read before the lock is out of date, when the new one is not usable, or while a scan is live |
| Authorization.Store.Archive | backend/app/api/targets.py:384-432 | archiving drops profile and permission, and is refused while a scan is live |
| Authorization.Store.LaunchScan | backend/app/api/scans.py:26-110 | a scan is created only for a permitted target whose profile is the one read before the locks and is usable, and carries that profile |
| Authorization.StepKeepsInv | backend/app/api/auth_profiles.py:102-218 | every transaction keeps the joint invariant over profiles, targets and scans |
| Authorization.RunKeepsInv | backend/app/api/targets.py:272-432 | the same over any run |
| Authorization.RevokedProfileIsUnused | backend/app/api/auth_profiles.py:142-174 | after any run a revoked profile has no secret, no target and no live scan |
| Authorization.LiveScanMatchesItsTarget | backend/app/api/scans.py:279-322 | a live web scan's target is not archived, has the scan's workspace and profile, and that profile has its secret |
| Authorization.LiveScanKeepsItsCredential | backend/app/api/auth_profiles.py:188-204 | as long as a scan stays live its profile record does not change at all |
| Authorization.SecretIsLatest | backend/app/api/auth_profiles.py:102-174 | after any run a profile's secret is the one of the latest granted creation or rotation of it, and none once a revocation was granted since |
| Authorization.ProfileIsLatest | backend/app/api/targets.py:272-432 | a target has the profile of the latest granted creation, attachment or archiving, unless that profile was revoked since |
| Authorization.RecordIsKept | backend/app/api/auth_profiles.py:122-163 | a profile stays in its workspace, counts its granted rotations, and its revocation carries the time of a granted call |
| Authorization.TargetIsAsArchived | backend/app/api/targets.py:384-432 | a target stays in its workspace; it is archived, and without permission, exactly when an archiving was granted |
| Authorization.ScanIsAsLaunched | backend/app/api/scans.py:26-110 | a scan is what its launch asked for, under the profile that was read for it, in the status it was moved to last |
| Authorization.LiveScanUsesTheLatestSecret | backend/app/api/auth_profiles.py:188-204 | a live scan with a profile runs under the secret that was the latest when it was launched, and that secret is still the latest |
| Authorization.GrantedExactly | backend/app/api/auth_profiles.py:102-204 | after any run each call is granted exactly under conditions on what is stored, in which a live scan counts wherever it is; a refused call changes nothing |
| Utf8.DecodeInvertsEncode | backend/app/findings/redaction.py:24-34 | a byte sequence decodes strictly to a text exactly when it is that text's encoding (RFC 3629, section 3) |
| Utf8.PrefixOfEncoding | backend/app/findings/redaction.py:24-34 | an encoding that begins another belongs to a prefix of its text |
| Utf8.TruncateUtf8 | backend/app/findings/redaction.py:24-34 | the loop ends with the longest character prefix whose encoding fits the cut, at most three bytes short of it; a fitting value is returned as it is; a negative limit counts from the end |
| Utf8.ReplacedSize | backend/app/scanner/http_client.py:262-263 | replacement decoding of n bytes gives at most n characters and at most 3n bytes |
| Utf8.ReplacingValidIsStrict | backend/app/scanner/http_client.py:262-263 | on valid bytes replacement decoding is strict decoding |
| Base64.DecodeEncode | backend/app/scanner/relay_protocol.py:17-34 | decoding undoes encoding in both alphabets and n bytes take 4 * ceil(n / 3) characters (RFC 4648, sections 4 and 5) |
| Base64.DecodedLength | backend/app/scanner/relay_protocol.py:24-34 | an accepted text is one group of four characters for every three bytes begun, followed by nothing but surplus padding |
| Base64.SurplusPadding | backend/app/scanner/relay_protocol.py:24-34 | padding added to an encoding is read over when the encoding needs none, and refused otherwise |
| Base64.StripThenRepad | backend/app/scanner/relay_capability.py:137-146 | stripping the padding and computing it from the length restores the text, for every number of bytes (RFC 4648, section 3.2) |
| RelayProtocol.ReadLimitedBody | backend/app/scanner/http_client.py:275-282 | the bytes read are the first limit bytes of the whole stream, so one byte more than a limit tells whether the stream exceeds it |
| RelayProtocol.DecodeUnderAnotherLimit | backend/app/scanner/relay_protocol.py:17-34 | what one side encodes the other reads back unchanged exactly when its own limit would have let it encode the body |
| RelayProtocol.AcceptedIsEncodable | backend/app/scanner/relay_protocol.py:24-34 | only bodies within the encoder's limits are accepted, in a text of the length of their encoding apart from surplus padding |
| RelayProtocol.AnyBodyPassesTheRelay | backend/app/scanner/relay_protocol.py:17-34 | for all bytes the decoded body is never rejected, takes at most 4 * limit characters and comes back unchanged |
| RelayHeaders.Gather | backend/relay/main.py:203-220 | the loop leaves the dictionary of the longest start of the projected headers that fits the byte budget, or stops at the header cap |
| RelayHeaders.SafeResponseHeaders | backend/relay/main.py:203-220 | the forwarded headers are clipped copies of safe headers of the response, within the byte budget, and the cap of fifty is never what stops the loop |
| RelayHeaders.AllForwardedIffTheyFit | backend/relay/main.py:203-220 | no candidate is dropped exactly when all together fit the budget |
| RelayHeaders.ForwardsAStart | backend/relay/main.py:203-220 | what is forwarded is, for a start of the response's headers and for all of them when they fit, exactly the last value of each safe name, cut at 4096 characters |
| RelayEnvelope.EnvelopeFits | backend/app/scanner/relay_protocol.py:37-53 | every response whose parts respect their caps, the URL with its five characters of growth, renders with JSON escapes within the envelope limit |
| RelayEnvelope.ReadEnvelope | backend/app/scanner/http_client.py:185-192 | the worker gets the whole document or rejects it, exactly by whether it exceeds the limit |
| EnvelopeReadsBack.QuoteIsInjective | backend/relay/main.py:179-200 | the escape of a JSON string is invertible |
| EnvelopeReadsBack.RenderIsInjective | backend/relay/main.py:179-200 | two responses with one document are the same response |
| EnvelopeReadsBack.ParseReadsBack | backend/app/scanner/http_client.py:185-202 | so there is a parser that reads back every document of the relay |
| RelayExchange.Fetch | backend/relay/main.py:144-200 | the relay denies exactly the URLs its policy does not cover; it answers exactly when a chain of at most the allowed redirects, each with a location that is not blank and a covered target that connects, leads from the URL to a final reply whose address fits, and then with that URL, those redirects, and the status, body, cookies and headers of that reply; it fails exactly when no such chain ends in a final reply |
| RelayExchange.ReadRelayed | backend/app/scanner/http_client.py:185-192 | in whatever chunks the document arrives, the worker reads it as a whole |
| RelayExchange.RelayedFits | backend/app/scanner/relay_protocol.py:37-53 | every answer of the relay with short redirect entries, and with a body that the worker's limit admits, renders within the worker's limit |
| RelayExchange.ReceivedIffPasses | backend/app/scanner/http_client.py:185-255 | the worker receives an answer of the relay exactly when URL, status, redirect entries, body limit and address pass its checks, and then with the body that the relay read from the target |
| RelayExchange.UrlArrives | backend/app/scanner/http_client.py:196-202 | an answer whose URL its explicit port made too long is always refused; one that is short enough and does not end in a blank keeps its URL and is covered, so only the other checks decide |
| HttpClient.Get | backend/app/scanner/http_client.py:85-144 | the requests follow validated redirects from the start, at most the limit plus one; each way the loop ends is the one its last response calls for; running out of attempts never happens for an admissible limit |
| HttpClient.TrailIsUnique | backend/app/scanner/http_client.py:92-142 | the requested URLs depend on nothing but the site |
| HttpClient.LargerLimitSameAnswer | backend/app/scanner/http_client.py:92-142 | an answer found under one redirect limit is the answer under every larger one |
| HttpClient.NoAnswerNoFinal | backend/app/scanner/http_client.py:92-144 | where the loop found no answer, no chain of redirects within the limit ends in one |
| Allowlist.ScopeIsPrefix | backend/app/security/allowlist.py:423-430 | for canonical paths, lying within a scope is one prefix test on the paths closed by a slash |
| Allowlist.ScopeSurvivesDecoding | backend/app/security/allowlist.py:410-430 | a path in scope, once decoded and with its dot segments resolved, still leads into the base path; nothing is left to resolve |
| Allowlist.HasDuplicateIds | backend/app/security/allowlist.py:379-382 | whether two policies share an id |
| Allowlist.ValidateUniqueEntries | backend/app/security/allowlist.py:377-396 | accepted exactly when ids are distinct and no two scopes of one origin overlap; otherwise the first overlapping pair is named |
| Allowlist.MatchAllowlistedTarget | backend/app/security/target_url.py:83-99 | the verdict over the list of covering policies: one, none, or ambiguous |
| Allowlist.CoverersOverlap | backend/app/security/allowlist.py:423-430 | two policies that cover one URL have overlapping scopes |
| Allowlist.OverlapIsShared | backend/app/security/allowlist.py:384-395 | two overlapping policies both cover some URL |
| Allowlist.AcceptedMeansUnambiguous | backend/app/security/allowlist.py:377-396 | the uniqueness check passes on scopes exactly when no URL at all is ambiguous |
| Allowlist.NeverAmbiguous | backend/app/security/target_url.py:95-98 | in an accepted list the ambiguous branch is never taken |
| Allowlist.OnePolicyAgrees | backend/relay/main.py:154-156 | a match against the worker's single policy and a match of the relay's whole list select the same policy for every URL |
| TargetUrl.NormalizedLength | backend/app/security/target_url.py:42-80 | a normalised URL is longer than the raw text by at most five characters, a default port and a slash |
| TargetUrl.DefaultPortWritten | backend/app/security/target_url.py:60-78 | a URL without a port normalises exactly as with ":80" or ":443" written out for its scheme, whatever follows the location |
| TargetUrl.NormalizeAgain | backend/app/security/target_url.py:42-80 | normalising the text of a normalised URL is refused as too long exactly when it is longer than the limit; otherwise it gives the same URL exactly when the text does not end in a blank, and else a URL of the same origin with a shorter text, or none |
| TargetUrl.ThirdForm | backend/app/security/target_url.py:42-80 | whatever normalises three times is given back from the third form on |
| TargetUrl.TwiceBlankForms | backend/app/security/target_url.py:42-80 | the two further normal forms of a URL with a blank query behind a path that ends in a blank: without the query, then without the blanks, if that path is canonical |
| TargetUrl.OnlyTwiceBlank | backend/app/security/target_url.py:42-80 | two further forms that differ come from such a URL only |
| TargetUrl.BlankNeedsAMark | backend/app/security/target_url.py:42-80 | a normalised text ends in a blank only for a raw text that ends in an empty fragment, or in an empty query |
| TargetUrl.SecondFormSettles | backend/app/security/target_url.py:42-80 | a raw text without an empty fragment at its end settles at the latest at its second normal form |
| TargetUrl.NormalizingTwiceCanFail | backend/app/security/target_url.py:42-80 | a URL of the greatest length without a port, whose normal form is too long |
| Pagination.CursorRoundTrip | backend/app/api/pagination.py:21-44 | the unpadded cursor decodes to the row it was made from, for every length of its text |
| Pagination.SelectedRows | backend/app/api/findings.py:831-839 | the cursor condition selects exactly the rows after the cursor and keeps their order |
| Pagination.NextPageContinues | backend/app/api/pagination.py:47-56 | on an unchanged table the next page starts exactly where this one ended |
| Pagination.PageFacts | backend/app/api/pagination.py:47-56 | a page of any table shows rows after the cursor, and each such row is shown or lies after the next cursor |
| Pagination.UnchangedTable | backend/app/api/pagination.py:47-56 | following the cursors yields the selected rows exactly once and in order, within as many requests as there are full pages, and not within fewer |
| Pagination.ChangingTable | backend/app/api/findings.py:831-839 | whatever is inserted or deleted between pages, no row is shown twice, only rows that were there are shown, and a row present throughout is shown |
| Pagination.ReadPages | frontend/src/lib/securityAuditApi.ts:441-460 | the client loop returns the concatenated pages of whatever server, its first error, or the paging error when pages run out |
| Pagination.ReadAllPages | frontend/src/lib/securityAuditApi.ts:441-460 | reading a collection that may change meanwhile shows each row once, only rows that were there and every row that was there throughout, or fails with the client's limit; an unchanged collection is complete up to twenty thousand rows and fails beyond |
| Pagination.ClientFollowsCursors | frontend/src/lib/securityAuditApi.ts:441-460 | client and server together, with cursors as text, gather what following the rows gathers |
| Pagination.ClientReadsUpTo | frontend/src/lib/securityAuditApi.ts:441-460 | an unchanged collection comes back complete up to twenty thousand rows and is refused beyond |
| Risk.DedupeFindings | backend/app/risk.py:175-182 | the loop over the sorted findings returns the best finding per key in key order, as the order-free definition does |
| Risk.DedupeFindingsBySubject | backend/app/risk.py:185-192 | the same per subject and key |
| Risk.DedupeIgnoresOrder | backend/app/risk.py:175-182 | the same findings in any order deduplicate to the same list |
| Risk.DedupeKeepsTheHighest | backend/app/risk.py:175-182 | a finding survives exactly when it has the highest priority under its key |
| Risk.DedupeTwice | backend/app/risk.py:175-182 | deduplication is idempotent |
| Risk.RoundedIsNearest | backend/app/risk.py:265-268 | the rounded score is within half a unit of the exact one, and even at a tie |
| Risk.CeilingSurvivesDedupe | backend/app/risk.py:255-264 | the ceiling of the deduplicated findings is that of all findings, since a key is lost only to a severity at least as high |
| Risk.LabelWithinBand | backend/app/risk.py:240-302 | the score stays within the ceiling of the highest severity found, and its label needs a finding of that band's severity or a higher one |
| Risk.LabelsBeginAboveCeilings | backend/app/risk.py:255-302 | each label begins right above the ceiling of the severity below its own |
| Risk.AggregatesAgree | backend/app/risk.py:54-100 | the score from weights and severity counters is the score defined on the findings |
| Risk.CalculateScanRiskScore | backend/app/risk.py:54-100 | the loop with its counters computes that score and its label |
| Risk.FreshKeyNeverLowers | backend/app/risk.py:240-268 | adding a finding under a new key never lowers the score |
| Risk.FreshKeyAdds | backend/app/risk.py:240-268 | below the ceilings a finding under a new key adds 15 percent of its weight, or its lead over the primary weight and 15 percent of that one, up to the rounding of the two scores |
| Risk.SingleFindingScores | backend/app/risk.py:23-60 | the score of a single finding for every severity and confidence |
| Risk.KnownKeyCanLower | backend/app/risk.py:281-287 | under a key that is there already a finding can lower the score: priority compares severity before confidence |
| Risk.OneSubjectPosture | backend/app/risk.py:198-231 | the posture of one subject is the scan score of its findings |
| Staging.CopyFolder | backend/app/repo_scanner/staging.py:96-130 | one folder: the totals of what is done, left and waiting stay those of the whole tree, and a failure is explained by the whole tree |
| Staging.Walk | backend/app/repo_scanner/staging.py:90-131 | the stack-based walk ends, and its counts, its staged tree or its error are those of the recursive filter |
| Staging.CopyTree | backend/app/repo_scanner/staging.py:90-131 | with the repository's skip lists: success exactly when nothing kept exceeds a limit or is unreadable, then with the recursive counts and tree; for a readable tree the limit error exactly when some kept file, the number of files or their total exceeds its limit; a copied tree holds exactly the paths that the source holds behind folders none of which is skipped |
| Staging.StagedIffHeld | backend/app/repo_scanner/staging.py:96-130 | a path is staged as a copy exactly when the source has that file there, its name is no scanner configuration, and no folder on the way is skipped; likewise for folders |
| Staging.BrokenIffHeld | backend/app/repo_scanner/staging.py:96-130 | something kept is unreadable exactly when such an entry lies at some path |
| Staging.StagedFilesCounted | backend/app/repo_scanner/staging.py:123-131 | the counts are the number of staged files and of their bytes, and a kept file is too large exactly when a staged one is |
| Staging.SkippedEntriesCounted | backend/app/repo_scanner/staging.py:103-122 | the skipped entries are counted once each: links, odd entries and skipped names behind folders that are kept |
| Staging.PathsAreFresh | backend/app/repo_scanner/staging.py:110-111 | no path is staged twice, so no folder or file is created where something already is |
| RateLimit.RateLimiter.CountRequests | backend/app/ops/rate_limits.py:68-79 | the loop returns the number of positions in the log with an allowed entry of the scope from the cutoff on |
| RateLimit.RateLimiter.EnforceApiRateLimit | backend/app/ops/rate_limits.py:13-41 | granted exactly when the limit is positive and the window, if any, holds fewer allowed entries of the scope; one entry is added with the decision, except for a granted request that rolls back |
| RateLimit.RateLimiter.PruneOperationalData | backend/app/maintenance.py:131-157 | too young an age is refused; otherwise the older entries are counted and, only when asked, removed: no older entry stays and every other one stays as often as it was there, in order |
| RateLimit.WindowGrantsAtMost | backend/app/ops/rate_limits.py:56-80 | over any run whose prunings keep the longest window, every closed interval of the window length less the lag grants at most the allowed number of committed requests, also those whose entries were pruned; without lag, the whole window |
| RateLimit.GrantedIsLogged | backend/app/maintenance.py:131-157 | the requests granted in such a run are those that an unpruned log would hold |
| RateLimit.LongerWindowHoldsMore | backend/app/ops/rate_limits.py:56-80 | an interval one second longer can hold one entry more |
| RateLimit.PruningChangesNothing | backend/app/maintenance.py:131-157 | pruning that keeps the longest window changes no later decision |
| RateLimit.PruningTooSoon | backend/app/maintenance.py:131-157 | pruning that keeps less than the window can turn a refusal into a permission, for every rule |
| ReplayGuard.Guard.Consume | backend/app/scanner/relay_capability.py:27-45 | purging, refusal of a live nonce, refusal at capacity, or the new entry |
| ReplayGuard.Guard.VerifyRelayCapability | backend/app/scanner/relay_capability.py:98-127 | accepted exactly when the token is for this request, within its time, its nonce not live and room left; then its nonce is live until it expires, and in every case no live nonce is lost and nothing else is gained |
| ReplayGuard.TableIsBounded | backend/app/scanner/relay_capability.py:33-45 | over any run the table never exceeds its maximum |
| ReplayGuard.NonceReuse | backend/app/scanner/relay_capability.py:33-45 | a nonce accepted twice has expired in between at the clock of some use, whatever the clocks do |
| ReplayGuard.NoReplay | backend/app/scanner/relay_capability.py:110-127 | with a clock that does not go back no token is accepted twice |
| ReplayGuard.FreshTokenAccepted | backend/app/scanner/relay_capability.py:48-127 | a created token that was not used is accepted exactly from two seconds before its issue to its expiry while there is room |
| ReplayGuard.ReplayWhenClockGoesBack | backend/app/scanner/relay_capability.py:110-127 | three uses in which a clock that goes back lets a token through twice |
| Markdown.PrintFencedBlock | backend/app/reports/service.py:915-925 | the loop computes the longest run of backticks, and the block is built around it |
| Markdown.LongestRunCovers | backend/app/reports/service.py:915-925 | no run of backticks in the value is longer than the run computed |
| Markdown.FenceIsShortest | backend/app/reports/service.py:915-925 | the value contains every shorter fence of at least three backticks |
| Markdown.FencedBlockReadsBack | backend/app/reports/service.py:915-925 | for every value the block read by section 4.5 of CommonMark 0.31 ends at its own fence and contains the lines of the value, less a final carriage return |
| Markdown.FencedBlockIsExact | backend/app/reports/service.py:915-925 | the value comes back exactly when it has no carriage return |
| Markdown.EntitiesOfEscapes | backend/app/reports/service.py:892-912 | escaping and then replacing three characters in turn is one replacement character by character |
| Markdown.SingleLineIsSame | backend/app/reports/service.py:890-892 | the printed text is one line, and a value is its own single line exactly when it has no line boundary |
| Markdown.MarkdownInlineReadsBack | backend/app/reports/service.py:890-912 | a left-to-right reader of escapes and entities recovers the single line of every value |
| Markdown.MarkdownInlineIsInjective | backend/app/reports/service.py:890-912 | two values print alike exactly when their single lines are equal, so printing is injective on values without line boundaries |
| Markdown.MarkdownInlineIsPlain | backend/app/reports/service.py:890-912 | in the printed text no markup character stands without an odd run of backslashes before it, and no angle bracket stands at all |

## Left out

- HTTP, DNS, TLS, subprocesses, file descriptors, temporary directories and the ZAP calls: a fetch is a function of the URL, a tool a choice of the run.
- SQLAlchemy and PostgreSQL: a transaction is one atomic step; isolation levels, the identity map and skipped locked rows are not modelled.
- Cryptography: signatures, hashes and encrypted secrets are values; a capability stands for a token whose signature was valid.
- Display texts of scans (current step, messages, error details) and the mapping of unknown failure codes to the general one.
- LifecycleSystem.LeaseFencing: is stated for scans of which no job captured a null owner; the other case is LifecycleSystem.NullCaptureRevivesScan.
- Authorization.RunKeepsInv: a scan that is terminal is never written again, which holds for fenced scans; a scan that a null capture revives can face an archived target or a revoked profile.
- Crawler.CrawlSite: the checkpoint at the head of the loop is not a branch of this method; its effect on the job is in LifecycleSystem.
- Crawler.CrawlSite: forms, inputs and page metadata other than links are not kept.
- The separate cancellation outcome inside the client-spider tool; it is one of the tool errors of a run.
- Workspaces in FindingManagement: one workspace; rules of others are never read by the queries.
- Lower-casing is ASCII in FindingManagement and a parameter elsewhere; percent-decoding is a parameter.
- FindingManagement rules are in creation order with distinct creation times; ties in the database order are not modelled.
- Page filters and ordering of findings other than the effective status.
- Reading a network location (host, port, credentials, bracket and NFKC checks), lower-casing a host and percent-decoding are functions of a library. That it reads back the location which the normaliser writes is asked only of the origin at hand (Rereads), and that this location is longer by at most a default port only of the raw text at hand (ShortLocation), which fails for hosts that grow when lower-cased, such as U+0130; for the relay both are asked of the URLs that the policy covers.
- CrawlTargets.CrawlIsSearchIff: a clashing start within two characters of the length limit, which leaves no room for the link that shows the failure; CrawlTargets.DirectCrawlIsSearch has no such limit.
- Resolving relative links, for which a function stands; joining absolute ones is modelled as the standard library of Python 3.11 does it.
- The site of a crawl does not change during the crawl, and the URLs requested in a redirect are part of the answer, not requests of their own.
- Redirect locations that the library cannot join to their page.
- Lone surrogates: strings are sequences of Unicode scalar values, which is what UTF-8 can encode.
- Base64.DecodedLength: the decoder is the strict one of Python 3.11 and later, which refuses leading padding and reads over surplus padding after whole groups; the lenient decoder of cursors, which also skips foreign characters, differs from it only on texts the server never wrote.
- JSON and ISO time texts of cursors: a codec that reads back what it wrote is a hypothesis.
- RelayEnvelope.EnvelopeFits: redirect entries are within the URL length cap, which the relay does not check, since it records a location before stripping it; RelayExchange.ReceivedIffPasses says that a longer entry makes the worker refuse the response.
- JSON parsing in the worker: a function that reads back what the relay renders, such as EnvelopeReadsBack.Parse; the types of a foreign document's fields are not modelled.
- Header names sent to the relay (validate_headers) and cookie parsing.
- Risk: binary floating point; weights are exact hundredths, the supporting factor is exactly 15 percent. The input summary is not kept.
- Risk texts (ids, keys, times) are ranks in their order, with distinct ids where a lemma says so.
- Staging: the tree does not change during the copy, an entry kind is known without error, and a directory lists in name order; the check that a regular file is still one after its metadata is read is not a branch.
- RateLimit: the advisory lock's hash and databases without it; the other tables that pruning cleans.
- Markdown: replacement of U+0000 by readers (section 2.3 of CommonMark), indented opening fences and tilde fences.
- Reports, dashboards, AI guidance, migrations, bootstrap, and all of the frontend except the paging loop.
