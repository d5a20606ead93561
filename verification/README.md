# Artifact server: verified models

This project models the protocols, caches and algorithms of the artifact server that are easiest to get wrong, and
proves what they promise. Each module stands for one component:

- `Revocation`, `AuthenticationCaches`: many processes with cached authentications, requests in flight and shared
  preview leases; access ends, leases are swept at once and again after cache lifetime plus margin.
- `StagingListing`, `StagingCleanup`, `StagingProgress`: the store's listing of expired uploads, one bounded cleanup pass
  with its report, and when such a pass makes the remaining staging smaller.
- `StagingProtocol`, `StagingRemoval`: any number of passes interleaved with claims, crashes and uploads still being
  written; what no crash can break, and which uploads can still be removed.
- `PublicationSources`, `Publication`, `ReplayIdentity`, `JsonText`, `JoinedText`: matching files against the manifest,
  blobs before commits, and the canonical texts behind idempotent replays.
- `ContentVariants`, `LibraryCatalog`, `PrincipalActivity`, `MeasuredPhase`, `AccessGrants`: caches, queues, throttles,
  worker pools and grants, each against something simpler.
- `CycleDetection`, `LineDiff`, `UrlScrubbing`, `DiagnosticsRedaction`: a graph search, a text comparison and a
  redactor, each against an independent definition.
- `OrderedMaps`, `Collections`: insertion-ordered maps as JavaScript has them, and facts about sets and multisets.

Objects whose methods change fields are classes with methods, each proved against a function or predicate on the old
state. Protocols between processes are state machines: a run is any sequence of enabled steps, and a theorem about runs
holds for every length and every interleaving.

## What the proofs assume

- Revocation: all processes read one clock and share one cache lifetime that is not negative; a request takes less
  than the margin (5 s) from its clock read to its lease write; the repository refuses a credential from the moment it
  ends, and a deactivated principal gets no new one, as `deactivateMember` of the SQLite store does in one transaction
  (`src/storage/sqlite-identity-repository.ts:498-548`).
- Staging: claims and releases are the compare-and-set updates of the store; ids sort by character; nobody writes a
  staged object later than a settle delay after its upload expired; a listing reads uploads and file rows at one moment.
- Publication: a file that says it is installed has its blob; a put or a promotion that succeeds leaves the blob.
- Activity: a process's own clock is monotone and its flushes do not overlap; the store may hold any instants at the start,
  and other processes may write any.
- Replay identity: artifact ids hold no colon, as generated ones do (`src/core/system.ts:23-25`).
- Variants: builds run one after another, only mappings that were found are reported unusable, and another process records
  a row only for a source that has none and after its blob.
- Library: version rows and blobs are immutable.
- Access: revisions start at 0 and grow by one with every write, and grant ids are not reused.

## Where the code does less than it says

- Activity: the stores write only when the stored instant is older than `at - 5 min`, on top of the same throttle in
  memory. So a stored instant can trail a process's latest use by almost two resolutions, not one: `StoredInstantIsRecent`
  proves the bound, `TwoResolutionsReached` reaches it, and `OneResolutionIffTaken` says over all later runs when one
  resolution is enough.
- Staging: the listing takes the first `limit` expired uploads and joins them with their file rows afterwards. A pass
  that stops after the last file row is gone and before the upload row is, leaves a row that takes up a place of the
  limit and is never listed. `RemovableIffNotBlocked` says exactly which uploads some run can still remove,
  `StopStrandsIff` exactly which stops leave one that none can, and `CleanStore` exactly when a failure-free pass shrinks
  the remaining staging. `AStopStrands` and `AStrandedRowBlocks` are the failing inputs: with limit 1 one such row keeps
  every later pass from another expired upload, whose rows and object stay for ever.
- Grants: no grant gives more than its author holds while it is in force, but when a project grant that replaced a
  narrower one expires or is deleted, its member falls back to the project's default role, which nobody was asked to
  hold. `StoringGivesOnlyHeld` and `DeletingGivesOnlyHeld` give the exact condition, `FallingBackGivesUnheld` both inputs.
- Project access: a caller who names a revision that does not exist yet can have a change counted against settings
  other than the ones it replaces. `ChangeCountsWhatItReplaces` gives the exact condition, `GuessedRevisionMissesLoss`
  a case.

## Model

| member | source | states |
|---|---|---|
| Revocation.SweptCredentialHasNoLease | src/application/installation-access.ts:898-957 | In every run of any number of processes, once the second sweep after a credential ended has run, no lease issued on it exists at any later moment and none can be issued, whatever was cached or in flight; this covers revoked and rotated keys. |
| Revocation.SweptPrincipalHasNoLease | src/application/installation-access.ts:799-836 | The same for a deactivated member: no lease of the member at all. |
| Revocation.SweptIssuesNothing | src/application/content-access.ts:324-373 | A request that can still write a lease never has a swept credential or a swept principal. |
| Revocation.LateLeaseIsBounded | src/application/installation-access.ts:686-719 | A lease on an ended credential is written less than cache lifetime plus margin after the end. |
| Revocation.OneSweepIsNotEnough | src/application/installation-access.ts:407-421 | With caching on there is a run in which a lease follows the first sweep, so the delayed second one is needed. |
| Revocation.LeaseAfterOneSweep | src/application/installation-access.ts:407-421 | From any state with a live cached credential, ending access and sweeping once still lets that credential become a lease. |
| Revocation.CachesStayBounded | src/application/installation-access.ts:721-775 | No cache entry of an ended credential lives longer than the end plus the cache lifetime, through hits, refills after a clear, and evictions. |
| Revocation.RequestsStayBounded | src/application/installation-access.ts:686-719 | Every authenticated request on an ended credential read its clock no later than the end plus the cache lifetime. |
| Revocation.StepKeepsInv | src/application/installation-access.ts:799-836 | Every step of the protocol keeps the bounds on caches, requests, sweeps and leases. |
| Revocation.RunKeepsInv | src/application/installation-access.ts:799-836 | The same over whole runs, and what is swept stays swept. |
| Revocation.LeaseStaysUnlessSwept | src/application/installation-access.ts:898-957 | Over every run: a lease whose token is not written again is gone exactly if its own principal was swept. |
| Revocation.AccessCanBeEnded | src/application/installation-access.ts:799-836 | From every state the two sweeps, cache lifetime plus margin apart, can be carried through for a member: exactly their credentials end, all of them are swept, and all other leases stay. |
| Revocation.CredentialCanBeEnded | src/application/installation-access.ts:898-957 | The same for one revoked credential, which alone ends. |
| AuthenticationCaches.AuthenticationCache.GetValue | src/application/authentication-cache.ts:44-54 | Answers only an entry that is still alive and makes it the newest; drops an expired one. |
| AuthenticationCaches.AuthenticationCache.SetValue | src/application/authentication-cache.ts:56-73 | Stores until the earlier of lifetime and credential expiry as the newest entry, drops the oldest beyond the bound, and leaves everything alone when the entry would be dead. Whenever the bound is positive, the value is then answered at every instant before both. |
| AuthenticationCaches.AuthenticationCache.EvictKey | src/application/authentication-cache.ts:40-42 | Removes exactly that key. |
| AuthenticationCaches.AuthenticationCache.ClearAll | src/application/authentication-cache.ts:36-38 | Leaves nothing. |
| AuthenticationCaches.RunKeepsValid | src/application/authentication-cache.ts:28-74 | Over every history keys are distinct and the size never exceeds the bound. |
| AuthenticationCaches.HitIsLatestAcceptedSet | src/application/authentication-cache.ts:44-73 | Every hit returns the value of the latest accepted set of its key that nothing ended since, before both its lifetime and its credential's expiry. |
| AuthenticationCaches.SetIsAnswered | src/application/authentication-cache.ts:44-72 | After a set that is alive at its own instant, its value is answered at every instant before its lifetime and its credential's expiry are over, and at no other. |
| AuthenticationCaches.GetHitsLatestSet | src/application/authentication-cache.ts:28-74 | Over every history: a get answers the latest live set of its key if it comes before both expiries, no evict, clear or late get came since, and fewer than the bound's number of other keys were used since; exactly then if nothing else left the cache. |
| AuthenticationCaches.GetMissesOtherwise | src/application/authentication-cache.ts:28-74 | Without such a set, or past either of its expiries, no get hits. |
| AuthenticationCaches.EntryIsStandingSet | src/application/authentication-cache.ts:44-73 | Whatever a history leaves in the cache is the entry of one standing set. |
| AuthenticationCaches.StackInclusion | src/application/authentication-cache.ts:28-74 | For every history and two capacities, the smaller cache is a subsequence of the larger one, which is ahead by no more than the difference in capacity. |
| AuthenticationCaches.SmallerHitIsLargerHit | src/application/authentication-cache.ts:44-54 | A hit in the smaller cache is the same hit in the larger one. |
| AuthenticationCaches.ApplyKeepsIncluded | src/application/authentication-cache.ts:36-73 | Every single call keeps the inclusion of the smaller cache in the larger. |
| AuthenticationCaches.CapacityLoss | src/application/authentication-cache.ts:52-72 | After a use of a key, calls about other keys lose it only once they used as many distinct keys as the bound, and do so exactly then if nothing else leaves; while it stays its entry is unchanged. |
| StagingCleanup.Pass.RemoveClaimed | src/application/expired-staging-cleanup.ts:134-160 | Pays the file budget exactly for the files removed, removes exactly the leading removable files that the budget pays for and no others, tries at most one removal more, and ends as the upload's answers demand. |
| StagingCleanup.Pass.CleanOne | src/application/expired-staging-cleanup.ts:162-191 | The same behind a claim: the outcome fits the upload, and an unhindered upload loses a file or goes away. |
| StagingCleanup.Pass.CleanExpired | src/application/expired-staging-cleanup.ts:225-261 | Stops exactly when an upload is left without an outcome or stopped in the middle, and then only because the file budget is spent or the next clock reading is past the deadline; every upload that was tried had a reading within it. Takes exactly the files it can and may, gives every other listed upload a fitting outcome, and with an unhindered first upload some row goes exactly when something is listed and neither budget is spent at the start. |
| StagingCleanup.Pass.RemoveOne | src/application/committed-staging-cleanup.ts:33-46 | A staged file is removed only after its digest and size were verified in this pass. |
| StagingCleanup.Pass.RemoveVerified | src/application/committed-staging-cleanup.ts:31-53 | After a failed verification nothing more of that upload is removed; the outcome fits the upload. Every removal has its own clock reading within the deadline, and a stop means a spent budget or a reading past it. |
| StagingCleanup.Pass.CleanCommitted | src/application/committed-staging-cleanup.ts:14-55 | Every removal of the phase comes after a verification of that digest and size, at most 1024 files and never more than the budget. Every claim and every removal has its own clock reading within the deadline, at most a minute after the start; the phase stops only for a spent budget or a later reading, and without such a reading goes through all uploads. It fails only at a failing claim. |
| StagingCleanup.IdentityKeyInjective | src/application/committed-staging-cleanup.ts:35-36 | The text under which a verified blob is remembered names exactly one digest and size, whatever the digest's characters. |
| StagingCleanup.RunExpired | src/application/expired-staging-cleanup.ts:212-274 | The first phase's report counts exactly how the listed uploads ended and says it stopped exactly when it did or ended at or past the deadline; it hands on exactly the file budget and the time it did not use. |
| StagingCleanup.MergedTallies | src/application/expired-staging-cleanup.ts:275-284 | Adding the second phase gives the counts of both phases together. |
| StagingCleanup.RunPass | src/application/expired-staging-cleanup.ts:193-296 | Refuses exactly the limits outside 1 to 1000 and the budgets outside their bounds. Otherwise the second listing is asked exactly when committed cleanup is configured, the first phase ended without a stop, and uploads and files are left: its failure or a failing claim is the pass's only failure, and its uploads are the ones cleaned. The report counts exactly the fitting outcomes of both phases, reports a stop exactly when one of the phases stopped, and names the committed deletions by their number. |
| StagingCleanup.RunCommitted | src/application/expired-staging-cleanup.ts:275-284 | When it is its turn, the second phase asks for what the limit leaves over, cleans exactly the uploads it gets within the files and the time left, and adds their counts to the report. |
| StagingCleanup.FirstStands | src/application/expired-staging-cleanup.ts:262-275 | Without a second phase the first one's report stands as it is, and without a stop every selected upload is counted. |
| StagingProgress.CleanStore | src/application/expired-staging-cleanup.ts:193-296 | A failure-free pass with granted claims makes file rows plus upload rows fewer exactly when one of the first `limit` expired uploads has a file row and the time budget allows a start; otherwise it leaves the store as it was. |
| StagingProgress.ShrinksIffSomethingIsListed | src/application/expired-staging-cleanup.ts:225-261 | Whatever rows a pass takes, with an unhindered first upload the store shrinks exactly when one of the first `limit` expired uploads has a file row and the pass gets to start. |
| StagingProgress.ListedIsStored | src/storage/sqlite-artifact-repository.ts:3238-3265 | Whatever is listed is stored, and no more than the limit. |
| StagingProgress.SomethingIsListed | src/storage/sqlite-artifact-repository.ts:3238-3265 | The listing is not empty exactly when one of the first `limit` expired uploads has a file row. |
| StagingListing.ListingKeepsLimit | src/storage/sqlite-artifact-repository.ts:3244-3256 | A listing by expiry, limit and then join never exceeds its limit. |
| StagingListing.ListingExists | src/storage/sqlite-artifact-repository.ts:3244-3263 | There is a listing for every store, cutoff and limit. |
| StagingCleanup.CountsAddUp | src/application/expired-staging-cleanup.ts:225-261 | Every upload is counted under exactly one outcome. |
| StagingCleanup.CountIsMultiplicity | src/application/expired-staging-cleanup.ts:226-261 | A count is how often its outcome occurs. |
| StagingProtocol.StagedObjectsKeepTheirRows | src/application/expired-staging-cleanup.ts:134-191 | At every moment of every run, with passes interleaved and stopped anywhere, each staged object still has its file row and its upload row. |
| StagingProtocol.StepKeepsSafe | src/application/expired-staging-cleanup.ts:134-160 | Every step keeps objects findable, because a file row goes only after its object and an upload row after all its objects. |
| StagingProtocol.TakeoverOnlyAfterSettleDelay | src/storage/sqlite-artifact-repository.ts:3205-3236 | A pass claims an upload that another still holds only if that one began at least a settle delay earlier. |
| StagingProtocol.StepKeepsClaimsApart | src/storage/sqlite-artifact-repository.ts:3205-3236 | Every step keeps the claim at least as late as its holders, and holders of one upload a settle delay apart. |
| StagingProtocol.HolderBeganEarlier | src/storage/sqlite-artifact-repository.ts:3205-3221 | A claim that is granted proves every present holder to be a settle delay older. |
| StagingRemoval.RemovableIffNotBlocked | src/storage/sqlite-artifact-repository.ts:3205-3318 | In every reachable state some run removes an upload exactly when a pass holds it, or a pass that lists it may still claim it, or it has a file row and fewer doomed uploads than the limit come before it. |
| StagingRemoval.BlockedForGood | src/storage/sqlite-artifact-repository.ts:3238-3265 | Any other upload is there in every later state, with whatever objects it has. |
| StagingRemoval.OpenIsRemovable | src/application/expired-staging-cleanup.ts:134-191 | For every upload that is not blocked there is a run, of passes that finish their lists and new ones, that removes it. |
| StagingRemoval.FinishPass | src/application/expired-staging-cleanup.ts:134-191 | A pass can remove everything it holds or may still claim, without touching the rest. |
| StagingRemoval.StopStrandsIff | src/application/expired-staging-cleanup.ts:179-189 | A crash, a release or a lost release strands the upload a pass holds exactly when nobody else holds it, no pass that goes on lists it and began late enough for the claim left behind, and its file rows are gone or as many doomed uploads as the limit come before it. |
| StagingRemoval.AStopStrands | src/application/expired-staging-cleanup.ts:134-160 | There is a run after which no run removes an upload row. |
| StagingRemoval.AStrandedRowBlocks | src/storage/sqlite-artifact-repository.ts:3245-3251 | With limit 1 there is a run after which another upload keeps its row, its file row and its object for ever. |
| PublicationSources.PublicationSourcesByPath | src/application/publish-artifact.ts:426-450 | Accepts exactly the file lists that are a permutation of the manifest on path, digest and size, and then maps every manifest path to its own file. |
| PublicationSources.SameLengthIsPermutation | src/application/publish-artifact.ts:434-449 | Distinct paths inside a list of the same length are a permutation of it. |
| PublicationSources.NotAPermutation | src/application/publish-artifact.ts:434-445 | One foreign or repeated file spoils the permutation, so each refusal is right. |
| Publication.CommittedVersionsHaveTheirBlobs | src/application/publish-artifact.ts:223-246 | In every run of any number of publishers, each committed version's blobs are there from its commit on, and no publication has more than four installs in flight. |
| Publication.StepKeepsCovered | src/application/install-publication-file.ts:39-71 | Every step, including a failed promotion that falls back to the stream, leaves each entry with its blob or with its file still to be installed. |
| Publication.StepKeepsInv | src/application/publish-artifact.ts:284-304 | Every step keeps that a commit finds all its blobs, and never loses a blob. |
| Publication.StepKeepsWidth | src/application/publish-artifact.ts:229-244 | At most four installs of one publication run at once. |
| Publication.RunKeepsInv | src/application/publish-artifact.ts:350-369 | The same over whole runs. |
| Publication.CanCommit | src/application/publish-artifact.ts:223-246 | From every state a publication alone can install exactly what it still has to and commit, whatever the others left running. |
| Publication.AcceptedFilesCanCommit | src/application/publish-artifact.ts:223-246 | Accepted files can be published: the version commits and exactly the blobs of the files not yet installed are added. |
| ReplayIdentity.ReplayIdentityIsInjective | src/application/publish-artifact.ts:399-424 | Two requests, of any operations, print the same canonical text exactly when every field agrees, whatever the expected version or digest of a link holds, as artifact ids hold no colon; staged and ordinary publishes differ. |
| ReplayIdentity.SameChange | src/application/artifact-management.ts:903-921 | A management operation and its value text determine the change, including renames, tag lists and closures. |
| ReplayIdentity.SameLinkChange | src/application/linked-artifacts.ts:1096-1106 | A link operation and its colon-joined value determine the change when artifact ids hold no colon. |
| ReplayIdentity.FreeTextIsUniqueIff | src/application/linked-artifacts.ts:1096-1106 | A remark on the joined form: with arbitrary texts in place of ids, a request's text would be its own exactly unless a joined part of a capture or relink held a colon. |
| ReplayIdentity.SameCanonical | src/application/artifact-management.ts:903-921 | Equal canonical values come from equal requests, across all operations. |
| JsonText.PrintInjective | src/application/publish-artifact.ts:400-407 | Two values print the same JSON text exactly when they are equal, with the string escapes of section 7 of RFC 8259. |
| JsonText.PrintPrefixFree | src/application/publish-artifact.ts:400-407 | No printed value is a proper beginning of another, whatever follows. |
| JsonText.ReadsBack | src/application/publish-artifact.ts:400-407 | A reader of section 7 strings and compact values of RFC 8259 reads every printed value back and leaves what follows. |
| CycleDetection.FindCycles | scripts/validate-conformance.rb:255-273 | Reports an error exactly when the dependencies between known requirements have a cycle, and every reported path is a closed walk from the reported requirement; it always ends. |
| CycleDetection.Search.Visit | scripts/validate-conformance.rb:258-272 | Restores the set being visited, never drops an error, and without a new error the requirement is finished. |
| CycleDetection.WalkGoesBack | scripts/validate-conformance.rb:258-272 | In a finishing order a walk only goes back. |
| CycleDetection.FinishedHasNoCycle | scripts/validate-conformance.rb:258-273 | If everything finished without an error there is no cycle. |
| LineDiff.ChangedLineRegion | src/application/compare-artifact.ts:277-300 | Null exactly for equal line lists; the region turns each list into the other; every other single region that does so removes and inserts at least as many lines. |
| LineDiff.GreedyRegionIsLeast | src/application/compare-artifact.ts:281-293 | The longest shared prefix, then the longest shared suffix beside it, leave the least to replace. |
| LineDiff.JoinSplit | src/application/compare-artifact.ts:273-275 | Splitting loses nothing and leaves no newline in a line. |
| LineDiff.SplitJoin | src/application/compare-artifact.ts:273-275 | Splitting is the exact inverse of joining lines without newlines. |
| LineDiff.PatchedTextIsAfter | src/application/compare-artifact.ts:273-300 | Splitting, patching and joining gives the other text. |
| UrlScrubbing.RedactUrlTextFacts | scripts/redact-browser-diagnostics.ts:55-67 | A second pass changes and counts nothing; the count is zero exactly when the text is unchanged; the parameters stay in place, and exactly the values of the fifteen credential names, in either case and neither empty nor redacted, are replaced and counted. |
| UrlScrubbing.RedactedTextShowsNoSecret | scripts/redact-browser-diagnostics.ts:55-67 | Wherever, by its places in the result, one of the separators leads one of the fifteen names letter by letter in either case and an equals sign, the whole value up to the next separator or white space is empty or redacted. |
| UrlScrubbing.SecretNamesAre | scripts/redact-browser-diagnostics.ts:21 | A parameter name is secret exactly when it has the length of one of the fifteen names and each letter is that name's or its ASCII capital. |
| UrlScrubbing.ParseRender | scripts/redact-browser-diagnostics.ts:57-58 | The leftmost matches of the parameter pattern cut every text into tokens that give it back. |
| UrlScrubbing.RenderParse | scripts/redact-browser-diagnostics.ts:57-58 | Texts of such tokens are cut into the same tokens. |
| UrlScrubbing.ScrubCanonical | scripts/redact-browser-diagnostics.ts:57-65 | Replacing values makes no new match and destroys none. |
| UrlScrubbing.ParamIsToken | scripts/redact-browser-diagnostics.ts:57-58 | Every parameter anywhere in a text is one of its matches. |
| DiagnosticsRedaction.RedactJsonValue | scripts/redact-browser-diagnostics.ts:69-92 | Returns exactly the redaction of the value and moves the shared counter by exactly the number of replaced values. |
| DiagnosticsRedaction.RedactFacts | scripts/redact-browser-diagnostics.ts:69-92 | A second pass changes and counts nothing, and the count is zero exactly when the value is unchanged, so skipping an entry whose count did not move loses nothing. |
| DiagnosticsRedaction.RedactedValueShowsNoSecret | scripts/redact-browser-diagnostics.ts:69-92 | No string of the result shows a credential parameter, every string under a secret key is redacted, and nothing else changed. |
| DiagnosticsRedaction.SecretKeysAre | scripts/redact-browser-diagnostics.ts:14 | A key is secret exactly when one of the pattern's words occurs at some place of it, each letter equal or its ASCII capital. |
| DiagnosticsRedaction.RedactIsRedaction | scripts/redact-browser-diagnostics.ts:69-92 | The result is the one value with the same arrays and keys in which each string under a secret key is the placeholder, only the credentials' values are replaced in other strings, and all else is equal. |
| DiagnosticsRedaction.CountIsReplacements | scripts/redact-browser-diagnostics.ts:69-92 | The count is one for each replaced string under a secret key and one for each credential in the other strings. |
| DiagnosticsRedaction.KeptFieldStaysHidden | scripts/redact-browser-diagnostics.ts:81-88 | A field left to its value's own redaction is not exposed afterwards. |
| ContentVariants.Variants.FindCached | src/application/content-variants.ts:108-112 | Answers a cached mapping, else nothing for a fresh miss, else asks the index. |
| ContentVariants.Variants.FindAnswered | src/application/content-variants.ts:113-123 | Whatever came in between, remembers the row the index gave, or that there was none. |
| ContentVariants.Variants.Find | src/application/content-variants.ts:108-124 | Uninterrupted: a cached mapping, else nothing for a fresh miss, else the index row; null only if within the last 30 s the source had no row or was reported unusable. |
| ContentVariants.Variants.ReportUnusable | src/application/content-variants.ts:130-136 | Forgets exactly that mapping, remembers a miss, and unless a forced rebuild failed recently queues one as the newest entry in place of a plain build. |
| ContentVariants.Variants.Schedule | src/application/content-variants.ts:126-128 | A closed service and a source that went over the limit leave the queue alone. Otherwise the source is queued afterwards: a new plain build as the newest entry, a queued one as it was. Every other source keeps its entry but for the oldest of a full queue. |
| ContentVariants.Variants.Enqueue | src/application/content-variants.ts:193-208 | The same for any entry: a new source, or a plain entry that a forced rebuild replaces, is the newest entry and exactly the queued one; a forced one stays as it was. The queue holds at most 1000 sources, one entry each. |
| ContentVariants.Variants.VersionPublished | src/application/content-variants.ts:102-106 | Every eligible entry of a published version is queued afterwards, unless the service is closed, a full queue dropped an entry, or its compression went over the limit before. |
| ContentVariants.Variants.PublishAndDrain | src/application/content-variants.ts:102-153 | A publication followed by a drain, with no run under way, builds every such entry, whatever comes in during the builds. |
| ContentVariants.ForcedStaysForced | src/application/content-variants.ts:193-202 | Whatever else is queued, a queued forced rebuild keeps its force or is dropped as the oldest of a full queue. |
| ContentVariants.Variants.Remember | src/application/content-variants.ts:183-191 | At most 10000 mappings, one per source and every one of them once an index row; the remembered one is newest and every other keeps its value but for the oldest of a full cache. |
| ContentVariants.RememberedMappings | src/application/content-variants.ts:183-191 | Remembering changes no other source's mapping and drops at most the oldest. |
| ContentVariants.Variants.TakeExisting | src/application/content-variants.ts:245-260 | Skips exactly when the index gave a row or the reported variant is stored at its size, and then remembers it. |
| ContentVariants.Variants.LookUp | src/application/content-variants.ts:245-260 | With anything coming in at both ends of the wait, a row that was there is found, and what is skipped is there. |
| ContentVariants.Variants.Interrupt | src/application/content-variants.ts:108-136 | A find's answer, a report, a schedule, another process's record or a close does what it is for, keeps every invariant, changes no index row, and takes nothing from an open queue that is not full. |
| ContentVariants.Variants.Record | src/application/content-variants.ts:280-281 | A row is recorded only when its blob is there; another row for the source is a conflict. |
| ContentVariants.Variants.PutAndRecord | src/application/content-variants.ts:274-283 | The blob is put, then the row recorded, then the mapping remembered, with anything coming in between; this process records nothing else. |
| ContentVariants.Variants.Compress | src/application/content-variants.ts:261-283 | Compresses exactly when the sizes allow it and no earlier compression was over the limit; a source that goes over is never compressed again, whatever comes in meanwhile. |
| ContentVariants.Variants.Build | src/application/content-variants.ts:224-287 | Interrupted at every wait: compresses exactly when nothing intact was found and the source is compressible, and ends exactly as the sizes, the compressor, the blob store and the index demand. It records exactly what it built, and leaves what it built or found in the mappings; undisturbed it changes nothing else. |
| ContentVariants.Variants.BuildNext | src/application/content-variants.ts:210-222 | Takes the oldest queued source and builds that one with its own declared size; only a failed forced rebuild sets a backoff. |
| ContentVariants.Variants.RunQueue | src/application/content-variants.ts:210-222 | With sources queued, reported and a close coming in during its builds, ends with an empty queue or closed; each entry taken is one build in the log, and unless a full queue dropped an entry or it was closed, every source queued at the start is built, undisturbed each once in queue order. |
| ContentVariants.Variants.Backfill | src/application/content-variants.ts:159-175 | Examines distinct eligible sources, at most the limit, all of them if the limit allows, builds each one, and its counts are how many of those builds ended in each way, whatever comes in meanwhile. |
| ContentVariants.Variants.Close | src/application/content-variants.ts:177-181 | Empties the queue for good. |
| LibraryCatalog.ListArtifacts | src/application/library-catalog.ts:183-213 | The paged loops list exactly the first 2000 artifacts of the concatenated project listings, and report truncation exactly when there are more. |
| LibraryCatalog.ListProject | src/application/library-catalog.ts:192-211 | One project's pages add exactly its artifacts, up to the cap. |
| LibraryCatalog.AppendPage | src/application/library-catalog.ts:203-209 | A page is appended item by item until the cap. |
| LibraryCatalog.CacheIsInvisible | src/application/library-catalog.ts:144-181 | From an empty cache of any size, under any interleaving of readers and new versions, every hit and every miss whose reads were complete answers what a reader without a cache answers. |
| LibraryCatalog.FetchedIsUncached | src/application/library-catalog.ts:158-181 | A miss with complete reads is right, and what may be remembered cannot go stale. It is remembered whenever its reads were complete and settled. |
| LibraryCatalog.IndexEntryIs | src/application/library-catalog.ts:165 | The index entry is the first one at the index path, and there is none exactly when no entry has that path. |
| LibraryCatalog.UncachedIs | src/application/library-catalog.ts:158-181 | What a version contributes, by the place of its first index entry: nothing, invalid when that is too large or unreadable, else a gallery. |
| LibraryCatalog.MissIsRemembered | src/application/library-catalog.ts:162-181 | A complete miss of a settled version is a hit for the next reader and the newest entry; only the oldest of a full cache goes. |
| LibraryCatalog.HitIsRenewed | src/application/library-catalog.ts:145-161 | A hit makes its entry the newest and loses none. |
| LibraryCatalog.EventKeepsFaithful | src/application/library-catalog.ts:148-161 | Every step keeps each cached contribution equal to the uncached one. |
| LibraryCatalog.VersionCache.Begin | src/application/library-catalog.ts:158-161 | A hit answers the cached contribution and renews it. |
| LibraryCatalog.VersionCache.Finish | src/application/library-catalog.ts:162-181 | A miss answers what its reads give and remembers it only if it can last. |
| LibraryCatalog.VersionCache.Remember | src/application/library-catalog.ts:148-156 | The remembered version becomes the newest entry and only the oldest is dropped. |
| PrincipalActivity.StoredInstantIsRecent | src/application/principal-activity.ts:47-97 | In every run, whatever the store held at the start and whatever other processes write, once a flush has finished and nothing failed for a subject, its latest use is less than one resolution plus the store's gap after the stored instant, however small the throttle; that instant is one of its uses, no later than the latest, or was there at the start, or came from another process. |
| PrincipalActivity.TwoResolutionsReached | src/storage/sqlite-identity-repository.ts:796-808 | With the shipped stores there is a run in which the latest use is one millisecond short of two resolutions after the stored instant. |
| PrincipalActivity.OneResolutionIffTaken | src/storage/sqlite-identity-repository.ts:796-808 | In every reachable state in which nothing of a subject is on its way and its latest write did not fail, all later throttled uses stay less than one resolution after the stored instant exactly when the row is not behind a write that the store's guard left out, or nothing more can be throttled and the latest use is within it. |
| PrincipalActivity.QuietRunKeepsStored | src/application/principal-activity.ts:52-69 | A run without another write of a subject by this process never moves its stored instant back, and moves its latest use only within the throttle's window. |
| PrincipalActivity.RunKeepsKnown | src/application/principal-activity.ts:52-95 | Whatever is pending or being written is a use, and whatever is stored is a use, another process's touch or what was there. |
| PrincipalActivity.OthersKeepInv | src/storage/sqlite-identity-repository.ts:796-808 | Whatever other processes write to the same row, the bounds of this one stand. |
| PrincipalActivity.QueuedWritesAreSpaced | src/application/principal-activity.ts:52-69 | Without failures and evictions, two writes of one subject are at least one resolution apart. |
| PrincipalActivity.RunKeepsInv | src/application/principal-activity.ts:52-95 | Every run keeps each noted instant queued, on its way, stored closely enough or failed. |
| PrincipalActivity.KeyOfInjective | src/application/principal-activity.ts:37 | The throttle's key names exactly one subject. |
| PrincipalActivity.Activity.Note | src/application/principal-activity.ts:52-69 | A throttled use changes nothing; another becomes the newest throttle entry and the pending instant. |
| PrincipalActivity.Activity.BeginFlush | src/application/principal-activity.ts:89-91 | A flush takes everything pending. |
| PrincipalActivity.Activity.WriteFirst | src/application/principal-activity.ts:71-87 | A failed write forgets the subject's throttle entry, a successful one does not. |
| PrincipalActivity.UseIsQueued | src/application/principal-activity.ts:52-69 | In every reachable state a use is queued unless its subject's last queued instant is noted and less than five minutes old. |
| PrincipalActivity.FailedWriteIsRetried | src/application/principal-activity.ts:71-87 | After a failed write the next use of that subject is queued again, however soon it comes and whatever comes before it. |
| MeasuredPhase.RunAnswersInOrder | project/performance/external-storage-baseline.ts:742-771 | In every interleaving, when all workers have stopped the sorted records are one per index in index order, each as its operation left it; without a worker there are none. |
| MeasuredPhase.FlightIsBounded | project/performance/external-storage-baseline.ts:747-766 | At every moment no more operations are in flight than there are and than were asked for, none twice and none again once completed. |
| MeasuredPhase.FullFlight | project/performance/external-storage-baseline.ts:764-766 | The bound is reached: some run has the smaller of count and concurrency operations in flight. |
| MeasuredPhase.PhaseCanEnd | project/performance/external-storage-baseline.ts:749-763 | From every reachable state some run ends with all workers stopped. |
| MeasuredPhase.StepKeepsInv | project/performance/external-storage-baseline.ts:749-763 | Every step keeps each index below the shared counter either in flight once or recorded once. |
| MeasuredPhase.PercentileIsNearestRank | project/performance/external-storage-baseline.ts:806-813 | The percentile is the nearest-rank sample: the one value up to which at least that share of the samples lies while every smaller bound leaves less. |
| MeasuredPhase.SummaryIsOrdered | project/performance/external-storage-baseline.ts:780-804 | Minimum, p50, p95, p99 and maximum are in order. |
| AccessGrants.GrantStore.PutGrant | src/application/access-administration.ts:393-463 | Refuses exactly the requests that mean something it may not store or more than the author holds, and conflicts exactly when the stored row is not the one seen at the expected revision, or not absent for a new grant. Otherwise it stores the normalised grant with the request's own meaning there and nowhere else. |
| AccessGrants.GrantStore.Upsert | src/storage/sqlite-access-repository.ts:177-232 | Writes only an empty place or the same row at the expected revision, whose revision grows by one. |
| AccessGrants.GrantStore.DeleteGrant | src/application/access-administration.ts:465-497 | Removes only the row that was seen at the expected revision. |
| AccessGrants.RoleHolds | src/core/permissions.ts:46-73 | A role holds exactly the permissions whose least role is not above it. |
| AccessGrants.HoldsIff | src/core/permissions.ts:202-267 | Permission by permission: a member holds it exactly if the project grant in force, else an open project's default role, or an unexpired artifact grant gives it, and neither the policy ceiling nor archival takes it. |
| AccessGrants.NormalisingKeepsMeaning | src/application/access-administration.ts:401-407 | Normalising makes additions disjoint from the role and removals part of it, and keeps the permissions granted. |
| AccessGrants.NormalFormIsCanonical | src/application/access-administration.ts:401-407 | With the role, two normalised grants give the same permissions exactly when they add and remove the same. |
| AccessGrants.GrantedPermissions | src/core/permissions.ts:165-170 | The loops give the role with the additions and without the removals. |
| AccessGrants.ProjectGrantGivesOnlyHeld | src/core/permissions.ts:202-267 | At any instant and under any policy, a project grant within what its author holds gives its member nothing beyond that and what was effective, exactly while it is in force or its member falls back safely. |
| AccessGrants.NoGrantGivesOnlyHeld | src/core/permissions.ts:222-235 | Without its project grant a member gains nothing beyond what was effective and given permissions exactly when the fall back to the default role is safe. |
| AccessGrants.StoringGivesOnlyHeld | src/application/access-administration.ts:393-463 | What a stored grant does to everyone's access at any later instant: nothing for others, and for its member nothing beyond what the author held, except exactly the unsafe fall back of an expired project grant. |
| AccessGrants.DeletingGivesOnlyHeld | src/application/access-administration.ts:465-497 | The same for a deletion, which has no check of what its author holds. |
| AccessGrants.FallingBackGivesUnheld | src/application/access-administration.ts:465-497 | An expiring grant over a denial, and the deletion of that denial, give a permission that neither the author nor the old grant had. |
| AccessGrants.ArtifactGrantGivesOnlyHeld | src/core/permissions.ts:202-267 | A new or replaced artifact grant gives nothing but what its author holds, at any time. |
| AccessGrants.SettingsGiveOnlyHeld | src/application/access-administration.ts:349-350 | New project settings give nothing but what their author holds. |
| AccessGrants.CompareAccess | src/application/access-administration.ts:358-371 | Counts the members who lose the project and lists exactly those who lose any permission, each by the two looks the call takes at them. |
| AccessGrants.ProjectAccess.ChangeAccess | src/application/access-administration.ts:339-391 | Refuses with a permission not held exactly when the new default role exceeds what the author holds, and asks for confirmation exactly for a positive number of members losing the project that was not confirmed, with that number. It writes only at the expected revision, revokes exactly the members who lose a permission, and then no member, under any policy and grants, has anything beyond what the replaced settings gave and the author holds; every other verdict writes nothing. |
| AccessGrants.ChangeCountsWhatItReplaces | src/application/access-administration.ts:351-390 | A change that succeeds replaces the settings it was counted against exactly when its expected revision was no later than the one it read; then exactly the members who lost a permission are revoked. |
| AccessGrants.GuessedRevisionMissesLoss | src/application/access-administration.ts:378-389 | With a guessed revision a member loses the project unconfirmed and keeps their sessions. |

## Left out

- Logout (`src/application/installation-access.ts:959-974`) sweeps before it revokes; the sweep theorem is about access that ended first.
- Content bootstraps and reuse of an existing lease: they create no lease of a new principal.
- Readmission of a deactivated member, and the rows a rotation writes; rotation is the end of one credential and a new one for the same principal.
- Cleanup budgets that are not finite numbers, which the code lets through as if omitted.
- Preparation leases on staged uploads, and staged uploads that commit while a pass holds them.
- The committed phase's claims between processes, and releases that fail there.
- SHA-256 and other digests are given values; the claims about replay identity are about the canonical text.
- Strings are sequences of characters; lone surrogates, Unicode normalisation and case folding beyond ASCII are not modelled.
- JSON parsing and writing of diagnostics files, trace archives, and records with repeated keys.
- The conformance script's other checks, and the text of its messages.
- Comparison of whole manifests and of binary files.
- Background mode and `drain` overlapping it: builds run one after another, and no claim is made that an item queued after the loop ended is built.
- Eligibility of media types, and the compressor.
- The Library's authorization, project order by name, dates and assembly of galleries; the preview index grammar is one unspecified reader.
- Rounding of the summary's figures and the mean; percentiles are over exact rationals, while the code multiplies floating-point numbers.
- Failing operations in a measured phase.
- AccessGrants.ProjectAccess.ChangeAccess: members lose what they lose by the grants and instants the call reads; grants written meanwhile and archiving are not part of the revision.
- Share links, guests, visibility across projects, and explanations of access.
- HTTP, MCP, command-line and Git plumbing, logging and spans.
