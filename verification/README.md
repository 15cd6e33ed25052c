# Verification of the site platform's stateful core

A Dafny 4.11 model of the parts of the platform that hold state, run loops or do
arithmetic whose properties span several functions, and proofs of those
properties. `dafny verify dfyconfig.toml` checks everything.

What is modelled, file by file:

- `GoStrings` - the operations of the Go standard library the components use,
  with the laws of splitting, joining, trimming and decimal numbers.
- `Redis`, `RateLimit`, `RateLimitAnswers`, `RateLimitRuns`,
  `RateLimitInterleaving` - the three-tier rate limiter. The class `Limiter` has
  one method per Redis operation and one for the middleware; runs handle
  requests one at a time, the interleaving makes each Redis command one step,
  lets commands fail and lets keys be deleted or trust be granted from outside
  at any time.
- `ProvisionStream`, `ProvisionErrors`, `FrappeReport`, `FrappeAnswers` - the
  incremental line splitter of the provisioning stream, the printer of its
  report and the parser that reads it.
- `RecoveryStore`, `RecoveryAnswers`, `RecoveryRuns`, `RecoveryChallenge`,
  `RecoveryCompletes` - the store of account recovery requests as a class, whole
  runs of it, and the challenge protocol, whose lock is released between its
  steps.
- `EnvStore`, `EnvWrites`, `EnvRemovals`, `EnvPatch`, `EnvDefaults`,
  `EnvDefaultsLaws`, `EnvDefaultsReaders`, `EnvDefaultsValues` - the readers and
  writers of `.env` files.
- `NodeImport`, `NodeImportLaws`, `NodeImportEnv`, `NodeImportUploads`,
  `NodeImportRuns` - the import of a node archive on a file system of
  directories and files, the ports its clients get, what its uploads can do, and
  whole imports.
- `TextPolicy`, `TextPolicyKinds`, `TextPolicyAnswers`, `TextPolicyCollapse`,
  `TextPolicyFix`, `TextPolicyPlain`, `TextPolicyKept`, `TextPolicyCheck`,
  `TextPolicyReports`, `TextPolicyLaws` - the text-policy fixer and checker.
- `Documentation`, `DocumentationAnswers`, `DocumentationRuns` - documentations,
  sections and articles with tombstones, revisions and transactions.
- `Forum`, `ForumAnswers`, `ForumRuns`, `ForumLedger`, `ForumRaces` - threads,
  comments, reply counters and the thread cache; the ledger interleaves the two
  statements of a new comment, the races interleave read, fill, write and
  invalidation.
- `Corpus`, `CorpusAnswers` - the frames fed to the corpus hash, and the checks
  on books, spans and book keys.

The modules whose names end in `Answers`, and those beside them that state texts
and values, say in plain numbers and words what each operation answers: for
every input, and independently of how it is computed. The others build on the
operations over runs, interleavings and transformations.

Where a promise does not hold for every input, the model keeps the code as it is
and states exactly when it does:

- Uploads apart, two imported clients can share a port in two ways. The
  automatic port is the largest port plus one in 64-bit arithmetic, which wraps
  onto a used port when the largest and the smallest integer are both in use
  (`NodeImportRuns.WrappedPortIsShared`). And the names in an archive are not
  validated: a name with a second line PORT=p, patched in before the port, gives
  the client the port p (`TwoLineNameSharesPort`). A round collides exactly in
  these cases (`NodeImportLaws.TakenExactly`), and an import keeps the ports
  distinct exactly when no round of it collides
  (`NodeImportRuns.ImportKeepsDistinct`), for every name. Names of one line and
  room above the ports are enough (`ImportIsInjective`, one direction).
- An uploads entry with ".." in it is written outside the directory of its
  client and can replace the `.env` of another
  (`NodeImportUploads.UploadOverwrites`). A round that comes to its uploads
  keeps a client's `.env`, in every order of the archive, exactly when each
  upload bound for it brings the text it has (`ClientIsKeptIff`), and leaves the
  clients as a whole alone exactly when each upload is harmless (`HarmlessIff`).
  That harmlessness is what the results on ports and on the set of clients ask
  for; uploads bound for no client `.env` have it in every state
  (`ContainedIsHarmless`).
- A name with a slash in it makes a directory that is no client to later rounds,
  so its port is neither seen nor protected
  (`NodeImportRuns.NestedClientIsInvisible`).
- The clusters of the Frappe versions take ports ten apart, so the eleventh
  cluster of one version gets the port of the first of the next
  (`FrappeAnswers.PortsClash`).
- Creating a comment is two statements, and the error of the second is ignored.
  Counters are exact when the two run together, and otherwise exactly when what
  was cut off at zero equals the outstanding and lost increments
  (`ForumLedger.CounterIsExactIff`, `OrderlyRunsCount`).
- A thread read before a write and cached after its invalidation is served
  stale, for no longer than five minutes after the fill
  (`ForumRaces.RacingStaleness`).
- The recovery cooldown needs clock readings that lag behind earlier ones by
  less than 28 minutes and two nanoseconds, and that bound is exact
  (`RecoveryRuns.CooldownIff`).
- The fixer takes one carriage return off a line before it trims blanks, so an
  input line with a blank before a carriage return that is uncovered by this is
  still reported, exactly when neither the filter nor the blank-line removal
  drops it (`TextPolicyLaws.TrailingSpaceExactly`, `TrailingSpaceRemains`).
- Filling in a default judges a key by its last active line and writes its first
  one, so the first-match reader can lose a value, as for a file with K=value
  and then K= (`EnvDefaultsReaders.FirstValueIsLost`). It keeps one exactly when
  no required default is set over it (`FirstValuesAreKept`); one active line per
  key is enough (`OneLineIsKept`). The map readers lose nothing
  (`EnvDefaultsLaws.ValuesAreKept`).
- A second synchronisation of defaults finds an empty required key again when a
  later line of that key is empty (`EnvDefaultsLaws.SecondSyncIsIdle`).
- An archived `.env` without a PORT line is restored without one, since the
  patching writer never adds lines (`NodeImportLaws.RestoredPort`).
- Normalising a book key is not idempotent for texts such as tab between dashes:
  it is exactly when no white space is left at the ends of the text without its
  outer dashes, underscores and spaces (`Corpus.NormalizingTwice`).
- The comments in `backend/config/ratelimit.go` compute an example from 1500
  requests and speak of sliding windows; the code starts from 256, and its
  counting windows are fixed from the first request on. The model follows the
  code.

Parameters stand for what the model cannot see: the clock, ids from sequences or
random generators (assumed unused), the second-factor check, generated default
values, the canonical public URL of a DOMAINS value, and the statement at which
a database or a Redis command fails.

## Model

| member | source | states |
|---|---|---|
| RateLimit.AllowanceExact | backend/ratelimit/redis.go:156-171 | The allowance computed over the reals is max(60, floor(2560 / (10 + jailed))): between 60 and 256, and at most 116 once twelve IPs are jailed |
| RateLimit.Limiter.JailIP | backend/ratelimit/redis.go:39-60 | Sets the jail key only if absent, drops history and counter, and counts the live jail keys |
| RateLimit.Limiter.JailedCount | backend/ratelimit/redis.go:65-81 | The cursor loop counts exactly the live jail keys |
| RateLimit.Limiter.ResetDEFCON | backend/ratelimit/redis.go:85-110 | Every live jail, history and counter key goes, trusted keys stay |
| RateLimit.Limiter.IsTrusted | backend/ratelimit/redis.go:116-129 | Tells whether the trusted key lives and restarts its lifetime if so |
| RateLimit.Limiter.PromoteToTrusted | backend/ratelimit/redis.go:132-145 | Sets the trusted key for a day, drops history and counter |
| RateLimit.Limiter.AdaptiveAllowance | backend/ratelimit/redis.go:156-171 | Returns the allowance for the number of live jail keys, never below 60 nor above 256 |
| RateLimit.Limiter.CheckAndCount | backend/ratelimit/redis.go:178-205 | One more than the live count; the window starts with the first count and is not extended |
| RateLimit.Limiter.RecordCleanRequest | backend/ratelimit/redis.go:215-234 | Counts one clean request in a fixed window; graduation exactly from the 1280th on |
| RateLimit.Limiter.DEFCONRateLimit | backend/middleware/ratelimit.go:29-147 | A whole request, step by step through jail, trust, purgatory and graduation, is the function Handle that the runs use |
| RateLimitAnswers.WhoIsLetThrough | backend/middleware/ratelimit.go:29-147 | A jailed IP, or one over its limit, is let through exactly with a granted second factor and else refused, a challenge being offered exactly if it may claim one; below the limit of 1500 if trusted, max(60, 2560 / (10 + jailed)) if not, it passes; a request of a jailed IP writes nothing |
| RateLimitAnswers.WhoIsJailed | backend/middleware/ratelimit.go:60-133 | An IP is newly jailed exactly when it is over its limit and cannot claim a second factor: for 300 s, with its counts gone |
| RateLimitAnswers.WhatIsCounted | backend/ratelimit/redis.go:178-234 | Each request of an IP that is not jailed counts one, in a window of 60 s from the first; each forwarded one of an untrusted IP counts as clean, in a window of 600 s |
| RateLimitAnswers.WhoIsTrusted | backend/ratelimit/redis.go:116-145 | Trust is granted with the 1280th clean request, renewed by each request of a trusted IP that is not jailed, each time for 86400 s, and otherwise as it was |
| RateLimitAnswers.SentenceIsServed | backend/ratelimit/redis.go:39-60 | Over every run without a reset: for 300 s after an IP was jailed each of its requests is refused, unless its second factor is granted |
| RateLimitAnswers.TrustIsKept | backend/ratelimit/redis.go:116-145 | Over every run: for a day after a promotion an IP that is not in jail and has used fewer than 1500 requests of its minute is let through as a citizen |
| RateLimitRuns.Simulation | backend/middleware/ratelimit.go:29-147 | What any event does to the four keys of one IP is a small machine of that IP alone: other IPs act on it only through the allowance |
| RateLimitRuns.HistoryIsItsForwards | backend/ratelimit/redis.go:215-234 | In every run the value of a history key equals the number of requests purgatory has forwarded since that lifetime of the key began |
| RateLimitRuns.GraduationIsThe1280th | backend/middleware/ratelimit.go:117-141 | In every run a request that graduates is exactly the 1280th that purgatory forwards in the present history lifetime |
| RateLimitRuns.GraduationBound | backend/ratelimit/redis.go:215-234 | In every run, resets and promotions included, a graduation comes at least 240 s after the first clean request of its history lifetime |
| RateLimitRuns.NoGraduationUnderTwelveJailed | backend/ratelimit/redis.go:156-171 | While at least twelve IPs are jailed, an IP without history never graduates |
| RateLimitRuns.JailedIpStartsFresh | backend/ratelimit/redis.go:39-60 | In every reachable state an IP with a live jail key has no live counter and no live history; this rests on time in whole seconds, in which the reply of TTL is not rounded |
| RateLimitRuns.ThroughputBound | backend/ratelimit/redis.go:178-205 | Without a reset, in any interval shorter than k counter windows purgatory forwards at most 256*(k+1) requests of an IP |
| RateLimitInterleaving.DrawIsFresh | backend/ratelimit/redis.go:178-205 | A counting script replies with a number no earlier reply of that key lifetime carried |
| RateLimitInterleaving.ForwardsPerCounterLifetime | backend/ratelimit/redis.go:178-205 | Under any interleaving of commands, failures, ticks and foreign deletions, purgatory forwards at most 256 requests against one counter lifetime |
| RateLimitInterleaving.GraduationTakesFiveCounterLifetimes | backend/middleware/ratelimit.go:90-141 | Under any interleaving a graduating request is one of at least 1280 recorded in its history lifetime; if all were counted they span at least five counter lifetimes |
| RateLimitInterleaving.StepKeepsInv | backend/middleware/ratelimit.go:29-147 | Every step of every in-flight request keeps the ticket invariant behind both bounds |
| RateLimitAnswers.AloneIsHandle | backend/middleware/ratelimit.go:29-147 | The single commands refine the request: one that is left alone, without a failing command, ends with the store and the answer of the request handled at one instant |
| ProvisionStream.ProvisionFrappeStream | backend/internal/grengo/service_sites.go:138-190 | However the text is cut into messages, the emitted lines, the output and the error are a function of the whole text and of how the stream ended |
| ProvisionStream.ConsumeMessage | backend/internal/grengo/service_sites.go:150-176 | One more message extends the lines emitted so far by exactly the new complete lines and leaves the tail pending |
| ProvisionStream.EmitAllExact | backend/internal/grengo/service_sites.go:147-176 | Lines are logged and kept up to the first ERROR line, which decides the error; without one all are |
| ProvisionStream.ErrorIsFinal | backend/internal/grengo/service_sites.go:147-190 | After the first ERROR line no later message changes the result |
| ProvisionErrors.FailsExactly | backend/internal/grengo/service_sites.go:147-190 | A stream that ends fails exactly if some line of its text starts with the word ERROR, a colon and a space and has more than 7 characters; with the first such line, as an exit code or an API error; and none of them is logged |
| ProvisionErrors.StreamThatEnds | backend/internal/grengo/service_sites.go:147-190 | The lines before that one are the log, those and itself the output |
| ProvisionErrors.BreaksExactly | backend/internal/grengo/service_sites.go:165-170 | A stream that breaks off fails with the first error among its complete lines, or else with the break |
| FrappeReport.ChooseCluster | internal/app/frappe.go:45-89 | The smallest cluster from 1 on that still has room |
| FrappeReport.CmdFrappeProvision | internal/app/frappe.go:45-156 | Prints version, cluster and the two ports of that cluster, or nothing for an unknown version |
| FrappeReport.ProvisionFrappeVersion | backend/internal/grengo/service_sites.go:199-238 | The parser is the fold of its lines over the stream output, with the defaults at the end |
| FrappeReport.AssignLines | backend/internal/grengo/service_sites.go:211-232 | Parsing printed pairs sets exactly the printed fields |
| FrappeReport.ReportRoundTrip | backend/internal/grengo/service_sites.go:199-238 | Whatever error-free log comes first and however the stream is cut, the four printed values are recovered and no default replaces them |
| FrappeAnswers.VersionsAccepted | internal/app/frappe.go:20-43 | The spellings of the three versions and their branches, in any case and with white space around |
| FrappeAnswers.FirstPorts | internal/app/frappe.go:145-156 | The first cluster of the three versions answers on 8150, 8160 and 8170 |
| FrappeAnswers.PortsClash | internal/app/frappe.go:45-156 | With ten clusters or fewer of each version no two share a port; the eleventh of one takes the port of the first of the next |
| FrappeAnswers.PrintedText | internal/app/frappe.go:142 | The four lines of the report, word for word |
| FrappeAnswers.NothingReported | backend/internal/grengo/service_sites.go:211-238 | A run that reports nothing is taken for cluster 1 with the ports 8000 and 3001, in the version asked for |
| FrappeAnswers.LastLineDecides | backend/internal/grengo/service_sites.go:211-226 | A line for one of the four keys decides its field and keeps the others |
| FrappeAnswers.RunFails | backend/internal/grengo/service_sites.go:199-207 | A run fails exactly when its stream breaks off or brings an error line |
| RecoveryStore.Service.CleanupRecoveryRequests | backend/internal/auth/service.go:331-347 | The three deleting loops leave the pending unexpired requests, the stamps of the last half hour and the unexpired challenges |
| RecoveryStore.Service.CreateRecoveryRequest | backend/internal/auth/service.go:360-417 | Cleanup, stamps, lookup and insertion in that order, including the email stamp a rejected call leaves behind |
| RecoveryStore.Service.ListRecoveryRequests | backend/internal/auth/service.go:419-434 | Every request left after cleanup, once, ordered by creation time with the newest first |
| RecoveryStore.Service.GetRecoveryRequest | backend/internal/auth/service.go:436-452 | Returns the request after cleanup, or one of the two errors |
| RecoveryStore.Service.ResolveRecoveryRequest | backend/internal/auth/service.go:454-472 | Removes and returns the request with its new status |
| RecoveryStore.Service.ExpireRecoveryRequestsByGuestSession | backend/internal/auth/service.go:474-494 | Removes exactly the pending requests of the session and returns them as expired |
| RecoveryStore.Service.ConsumeRecoveryResolutionChallenge | backend/internal/auth/service.go:545-552 | Forgets the challenge of the actor only if it is the one for this key |
| RecoveryAnswers.CreateAnswers | backend/internal/auth/service.go:360-417 | Refused without an email, then while a request of the account is open, then while email or address was seen in the last two minutes; ignored without an account; else registered |
| RecoveryAnswers.CreateLeaves | backend/internal/auth/service.go:360-417 | What a call leaves: the registered request, pending for half an hour; all open ones; the stamp of the email, and that of the address only if it is let through |
| RecoveryAnswers.ResolveAnswers | backend/internal/auth/service.go:436-472 | A request is found and resolved exactly while it is open, and every other open one stays |
| RecoveryAnswers.ExpireAnswers | backend/internal/auth/service.go:474-494 | Leaving a session expires its pending requests and no others |
| RecoveryAnswers.ConsumeAnswers | backend/internal/auth/service.go:545-552 | A challenge is forgotten exactly by its own actor with its own key |
| RecoveryRuns.StoreInvariant | backend/internal/auth/service.go:331-494 | In every reachable store every request is pending, expires 30 minutes after its creation, is stored under its id, and no two belong to one user |
| RecoveryRuns.GoneForGood | backend/internal/auth/service.go:331-494 | With fresh ids a request that has left the store never comes back |
| RecoveryRuns.LeavesOnceResolvesOnce | backend/internal/auth/service.go:454-494 | Each id leaves the store at most once and is resolved at most once |
| RecoveryRuns.NeverTooLate | backend/internal/auth/service.go:436-472 | Get and Resolve never return the expired error: cleanup at the same instant has removed the request |
| RecoveryRuns.CooldownIff | backend/internal/auth/service.go:331-400 | The cooldown holds over every run whose clock readings lag behind earlier ones by less than L, exactly when L is at most 28 minutes and two nanoseconds |
| RecoveryRuns.CooldownHolds | backend/internal/auth/service.go:360-400 | The one half: with readings lagging by less than that, two accepted calls sharing a normalised email or IP are at least two minutes apart |
| RecoveryRuns.CooldownNeedsCloseReadings | backend/internal/auth/service.go:331-400 | The other half, a run for every email and IP: one nanosecond more, and two calls less than two minutes apart are both accepted |
| RecoveryChallenge.KeyNamesTheTriple | backend/internal/auth/service.go:496-506 | Two challenge keys are equal exactly when action and trimmed request id are |
| RecoveryChallenge.PassesAreJustified | backend/internal/auth/service.go:508-543 | Under any interleaving a passing check has an earlier call for the same actor, request and action that raised the flag and stored the challenge less than ten minutes before; the challenge was unconsumed when read, and the flag was cleared after that raise |
| RecoveryChallenge.ResolutionsAreChallenged | backend/internal/auth/hndle_recovery.go:132-153 | Under any interleaving every resolution follows a pass of its own handler and has the status of its action, and no id is resolved twice |
| RecoveryChallenge.ResolutionsAreConsumed | backend/internal/auth/hndle_recovery.go:148-153 | Under any interleaving the handler of every resolution has consumed the challenge of its actor, request and action, or that is its next step |
| RecoveryChallenge.ConsumedIsSpent | backend/internal/auth/service.go:545-552 | Under any interleaving a pass whose challenge was read after a consumption rests on a challenge stored later than that consumption; only calls that read it earlier can still pass |
| RecoveryCompletes.PassesExactly | backend/internal/auth/service.go:508-543 | Without a database error a check passes exactly if the challenge read is for this action and request, has not expired at its clock reading, and no second factor is required; else it goes on to raise the flag |
| RecoveryCompletes.ConfirmedCallCompletes | backend/internal/auth/hndle_recovery.go:132-153 | Under any interleaving that leaves its confirmation, challenge and request alone, a call passes, resolves the request with the status of its action and consumes the challenge |
| RecoveryCompletes.TwoCallsResolve | backend/internal/auth/hndle_recovery.go:132-153 | For every actor, request and action, from every state that requires a second factor: a first call, the confirmation, and a second call within ten minutes resolve an open request |
| EnvStore.EnvValue | internal/repo/repo.go:148-164 | The first line starting with KEY= gives the value, one carriage return dropped |
| EnvStore.LoadEnvMap | internal/app/env.go:336-360 | The map of the last active assignments, the same for a scanner and for a split at newlines |
| EnvStore.ParseEnvBytes | internal/app/transfer.go:599-611 | The same map, read from the lines of an archive entry |
| EnvStore.LoadEnvKeys | internal/app/env.go:365-399 | The keys mentioned in active and commented lines |
| EnvStore.MapIsLookup | internal/app/env.go:336-360 | The map built front to back holds for each key its last active assignment |
| EnvStore.ScanIsSplit | internal/app/env.go:336-360 | Carriage returns and the final newline do not change what is read |
| EnvStore.SetEnvVal | internal/app/env.go:557-576 | The first line of the key is replaced in place, or a line is added; all others stay where they are |
| EnvWrites.SetEnvValLaw | internal/app/env.go:557-576 | Reading the key just set gives the value, every other key reads as before by both readers, and with at most one active line the map reader agrees too |
| EnvWrites.SetThenLookup | internal/app/env.go:557-576 | For the map reader the value is read back exactly when no later active line of the key overrides it |
| EnvWrites.SetLineAt | internal/app/env.go:557-576 | The first line of the key is replaced where it stands or one is added at the end, and every other line stays |
| EnvWrites.RemoveEnvVals | internal/app/env.go:578-610 | The lines mentioning a removed key go, in order and counted |
| EnvWrites.RemoveEnvValsLaw | internal/app/env.go:578-610 | Removed keys are gone for both readers, every other key reads as before |
| EnvRemovals.AssignmentsGo | internal/app/env.go:578-610 | An assignment to a removed key goes, active or commented out, and one to another key stays |
| EnvRemovals.OtherLinesStay | internal/app/env.go:578-610 | A line without an equals sign stays |
| EnvPatch.WriteEnvPatched | internal/app/transfer.go:615-636 | Every active line of an overridden key is rewritten in place and a final newline is added |
| EnvPatch.WriteEnvPatchedLaw | internal/app/transfer.go:615-636 | By both readers the patched file has the original keys, each with its override where there is one |
| EnvPatch.ParseOfPatched | internal/app/transfer.go:599-636 | parseEnvBytes of the output is the map that was written, on the original key set |
| EnvPatch.PatchedText | internal/app/transfer.go:615-636 | The active lines of overridden keys are rewritten where they stand, every other line is as it was, and the file ends in a newline |
| EnvPatch.MapIsPlain | internal/app/transfer.go:599-611 | What the map reader returns can be written back: one line, no white space at the end |
| EnvDefaults.LoadActiveEnvKeys | internal/app/env.go:401-428 | Exactly the variable-like keys with an active line |
| EnvDefaults.SyncEnvFileDefaults | internal/app/env.go:198-268 | The synchronised file and the returned count, for a missing file too |
| EnvDefaultsValues.WantedAreFilled | internal/app/env.go:198-268 | A required default whose key reads blank reads as its value afterwards unless a later line is in the way; an optional one that is not mentioned as its value or as a comment; any other key of the registry as before |
| EnvDefaultsValues.OthersAreKept | internal/app/env.go:198-268 | A key without a default reads as before |
| EnvDefaultsValues.CountIsWanted | internal/app/env.go:198-268 | The count is the number of defaults that were wanted |
| EnvDefaultsValues.OneBlock | internal/app/env.go:232-256 | The text that is appended for a default, word for word |
| EnvDefaultsValues.TextIsKept | internal/app/env.go:198-268 | What is in the file stays in front of what is appended, and nothing wanted leaves it untouched |
| EnvDefaultsLaws.ValuesAreKept | internal/app/env.go:198-268 | A value that is not blank to the map reader, the last active line of its key, reads the same for it afterwards |
| EnvDefaultsReaders.FirstValuesAreKept | internal/app/env.go:198-268 | For the first-match reader, over every file and registry: a value that is not blank is kept exactly when no required default of its key is set over it, or only that value itself |
| EnvDefaultsReaders.FirstValueAfterSync | internal/app/env.go:198-268 | And what that reader gets instead: the default of a key that the map reader found empty |
| EnvDefaultsReaders.OneLineIsKept | internal/app/env.go:198-268 | With at most one active line for its key a value that is not blank is kept for both readers |
| EnvDefaultsReaders.FirstValueIsLost | internal/app/env.go:198-268 | A file for every required default: a first line with a value and an empty later one; the value that the first-match reader had, as livekit.go:35-36 reads it, is replaced |
| EnvDefaultsLaws.SecondSyncIsIdle | internal/app/env.go:198-268 | A second synchronisation returns 0 exactly when no empty required key is overridden by a later active line of its own |
| EnvDefaultsLaws.SecondSyncReturnsZero | internal/app/env.go:198-268 | In particular with at most one active line per required key |
| NodeImport.Node.UsedPorts | internal/app/env.go:473-492 | The numeric PORT values of the directories that are entries of the root, in ascending order |
| NodeImport.Node.NextPort | internal/app/env.go:495-501 | 1080 without ports, else the largest plus one in 64 bits |
| NodeImport.Node.PortInUse | internal/app/env.go:504-511 | Membership in the used ports |
| NodeImport.Node.ResolvePort | internal/app/transfer.go:312-329 | With an override, that port or the end of the process if it is no number or in use; else the archived port if it is positive and free; else the next one |
| NodeImport.Node.UnpackUploads | internal/app/transfer.go:267-282 | Every uploads entry is written to where its path leads, in the order in which the map happens to be ranged over |
| NodeImport.Node.SetupClient | internal/app/transfer.go:244-282 | Directories, the patched file with CLIENT_NAME and PORT overridden and the canonical URLs filled in, the compose file and the uploads, up to the first failure that ends the process |
| NodeImport.Node.ImportNode | internal/app/transfer.go:195-236 | Every round of the loop is one import step on the file system, names being paths; the count is that of the clients restored |
| NodeImportEnv.RestoredUrls | internal/app/public_url.go:70-93 | A base URL that was set in the archived file is read back by both kinds of readers; a blank one is filled in with what DOMAINS gives, if it gives anything |
| NodeImportEnv.RestoredName | internal/app/transfer.go:244-265 | CLIENT_NAME reads the name, or its first line, and PORT the port, when the archived file has a line for them |
| NodeImportEnv.RestoredKeepsOthers | internal/app/transfer.go:244-265 | Every other key reads for both kinds of readers as in the archived file, unless a further line of the name assigns it |
| NodeImportEnv.OneLineLeavesKeys | internal/app/transfer.go:244-265 | No name of one line assigns another key |
| NodeImportUploads.PreparedFiles | internal/app/transfer.go:244-265 | The .env and the compose file of a prepared client, word for word, and no other file touched |
| NodeImportUploads.FilesAfterUnpack | internal/app/transfer.go:267-282 | In every order each file is as before or has the text of an upload for it, and an upload is there afterwards unless another brings a different text or something is in its way |
| NodeImportLaws.RestoredPort | internal/app/transfer.go:244-265 | The PORT read back from a restored file, for every name: that of a PORT line inside the name if the name is patched in first, else the resolved one, or none without a PORT line |
| NodeImportLaws.TakenExactly | internal/app/transfer.go:312-329 | When that port is one in use: a name that brings a used port along, or an automatic port that wraps onto one |
| NodeImportRuns.RoundKeepsDistinct | internal/app/transfer.go:205-231 | For every name, if the uploads of the round are harmless: it leaves the ports distinct exactly when they were and it adds no client that takes a used one |
| NodeImportRuns.ImportKeepsDistinct | internal/app/transfer.go:195-236 | So for the whole loop with harmless uploads, also one cut short: distinct afterwards exactly when they were before and no completed round collided |
| NodeImportRuns.ImportIsInjective | internal/app/transfer.go:195-236 | With one-line names, harmless uploads, and room above all ports in sight, the import keeps the ports distinct |
| NodeImportRuns.TwoLineNameSharesPort | internal/app/transfer.go:195-265 | In any state: a name whose second line is PORT=p gives two clients the port p |
| NodeImportRuns.WrappedPortIsShared | internal/app/env.go:495-501 | In any state with both extreme ports in use: an empty archived PORT gives two clients one port |
| NodeImportRuns.NestedClientIsInvisible | internal/app/env.go:473-492 | With harmless uploads a name that is a path below the root makes no client: its port is not seen by later rounds |
| NodeImportRuns.ImportedClients | internal/app/transfer.go:205-231 | After an import with harmless uploads the clients are those before and one for each completed round that adds one |
| NodeImportRuns.NamesHaveDirectories | internal/app/transfer.go:205-231 | After a completed import every name with an .env in the archive has its directory |
| NodeImportRuns.ExistingClientsAreKept | internal/app/transfer.go:205-231 | Over the whole loop a client that was there keeps its .env if every upload of the archive bound for that file brings the text it has |
| NodeImportUploads.ClientIsKeptIff | internal/app/transfer.go:267-282 | For every round that comes to its uploads: all its outcomes, in every order of the archive, keep the .env of a client exactly when each upload bound for it brings the text it has |
| NodeImportUploads.HarmlessIff | internal/app/transfer.go:267-282 | All outcomes of a round leave all clients as they were before its uploads exactly when each upload is harmless: bound for no client .env, or bringing the text that is there, or blocked by a file or directory |
| NodeImportUploads.ContainedIsHarmless | internal/app/transfer.go:267-282 | Uploads that are bound for no client .env are harmless in every state |
| NodeImportRuns.ContainedRuns | internal/app/transfer.go:195-236 | So every run over an archive of such uploads is one with harmless uploads |
| NodeImportUploads.UploadOverwrites | internal/app/transfer.go:205-282 | A whole round that does harm, in every state with a client: importing another with such an upload replaces the .env of the first by any text |
| TextPolicy.CommentLines | internal/textpolicy/comments.go:31-58 | The loop flags the lines as the block-state classification does |
| TextPolicy.IsDecorativeSeparator | internal/textpolicy/comments.go:78-96 | True exactly when some run of one separator character is long enough: two for box lines, five for = - _ * |
| TextPolicy.DecorativeCommentLines | internal/textpolicy/comments.go:98-166 | The scanner over blocks, quotes and offsets, line by line |
| TextPolicy.LineCommentIsJudged | internal/textpolicy/comments.go:144-153 | After code without quotes and slashes a line comment is flagged exactly when its text has a long run |
| TextPolicy.BlockLineIsJudged | internal/textpolicy/comments.go:114-119 | A line inside a block comment is judged as a whole, and the comment goes on |
| TextPolicy.BlockEndIsJudged | internal/textpolicy/comments.go:114-124 | The line that ends a block comment is judged up to the end, and what follows is read as code |
| TextPolicy.StringIsSkipped | internal/textpolicy/comments.go:125-139 | A string that closes on its line is passed over with everything in it, and what follows is read as code |
| TextPolicy.RawStringCommentIsJudged | internal/textpolicy/comments.go:125-128 | In a raw string what follows a # is judged as a comment would be |
| TextPolicyKinds.StyleOfFile | internal/textpolicy/comments.go:16-29 | Which extensions, in any case, have which comments, and that a Dockerfile has # ones |
| TextPolicyKinds.VendorElement | internal/textpolicy/check.go:157-160 | A path is vendored exactly if one of its elements is vendor |
| TextPolicyKinds.GeneratedHeader | internal/textpolicy/check.go:162-168 | Both marks among the first 512 characters make a text generated, and no text without both is |
| TextPolicyAnswers.OwnComments | internal/textpolicy/comments.go:31-58 | Lines starting with two slashes, or #, are comments by themselves, and code is none |
| TextPolicyAnswers.BlockIsComment | internal/textpolicy/comments.go:31-58 | All lines of a block are comments, and after it the file goes on as before |
| TextPolicyAnswers.PayloadIs | internal/textpolicy/comments.go:60-76 | The payload of a comment is its text without markers and white space around it |
| TextPolicyAnswers.RunsAre | internal/textpolicy/comments.go:78-96 | A text is decorative exactly if it has two equal box lines or five equal separators in a row |
| TextPolicyAnswers.BannerIs | internal/textpolicy/comments.go:168-186 | A comment between two empty ones makes both of them parts of a banner |
| TextPolicyCollapse.RemoveBlanks | internal/textpolicy/fix.go:68-83 | The repeated passes terminate and give the closed form |
| TextPolicyCollapse.CollapseLineByLine | internal/textpolicy/fix.go:68-83 | The closed form drops exactly the blank lines whose nearest earlier line that is not blank is a comment and that have content after them |
| TextPolicyCollapse.PassThenCollapse | internal/textpolicy/fix.go:68-83 | One pass does not change what the closed form gives |
| TextPolicyCollapse.MarkOfCollapse | internal/textpolicy/comments.go:31-58 | Classifying the kept lines gives the classification of the input restricted to them |
| TextPolicyFix.FilterInPlace | internal/textpolicy/fix.go:58-67 | The filter that appends to its own array keeps the lines of the specification, with the write index never past the read index |
| TextPolicyFix.CellsRead | internal/textpolicy/comments.go:168-186 | What each cell the banner test reads holds: the original line, except two back after a single removal that is not the line before, where it is the line before |
| TextPolicyFix.BannerFound | internal/textpolicy/comments.go:168-186 | So the test finds the banners of the original lines, and in the shifted case exactly what it finds instead |
| TextPolicyFix.Fix | internal/textpolicy/fix.go:43-94 | The whole fixer: untouched files, normalised lines, filter, blank removal, final newline |
| TextPolicyFix.FixOnlyDrops | internal/textpolicy/fix.go:43-94 | The output lines are the normalised ones with only blank lines, comment lines and single-line-comment lines left out |
| TextPolicyFix.DroppableInHash | internal/textpolicy/fix.go:96-106 | In files with # comments the droppable lines are the blank ones and those starting with # |
| TextPolicyPlain.PlainReplaces | internal/textpolicy/fix.go:47 | An em dash becomes a hyphen and a right arrow a hyphen and an angle |
| TextPolicyPlain.PlainKeeps | internal/textpolicy/fix.go:47 | And nothing else changes |
| TextPolicyPlain.LineIsTrimmed | internal/textpolicy/fix.go:48-51 | One carriage return at the end of a line goes, and then the blanks |
| TextPolicyPlain.FixReplaces | internal/textpolicy/fix.go:43-94 | A file without comments and with nothing to trim is written as its text with those replacements and a newline at the end |
| TextPolicyReports.CodeIsKept | internal/textpolicy/fix.go:43-94 | A file of code without comments keeps all its lines, the blank ones too |
| TextPolicyReports.CodeStays | internal/textpolicy/fix.go:43-94 | A line that is neither blank nor a comment stays |
| TextPolicyReports.DecorativeIsDropped | internal/textpolicy/fix.go:58-67 | A line that is only a decorative comment is dropped |
| TextPolicyCheck.Check | internal/textpolicy/check.go:77-130 | The reported violations are exactly those of the specification, rule, line and column |
| TextPolicyReports.CharactersReported | internal/textpolicy/check.go:110-122 | The two characters are reported exactly where they stand |
| TextPolicyReports.LinesReported | internal/textpolicy/check.go:96-109 | Conflict markers and blanks at the end of a line are reported exactly where they are |
| TextPolicyReports.EndReported | internal/textpolicy/check.go:88-90 | A missing newline at the end is reported, on the last line |
| TextPolicyReports.BlanksReported | internal/textpolicy/check.go:125-129 | A blank line is reported exactly between a comment and later content |
| TextPolicyReports.OtherFiles | internal/textpolicy/check.go:78-84 | A file that is no text is reported once as such, and a binary one not at all |
| TextPolicyReports.DecorativeIsReported | internal/textpolicy/check.go:105-108 | A line that is only a decorative comment is reported unless the file is vendored |
| TextPolicyLaws.CheckAfterFix | internal/textpolicy/fix.go:43-94 | After the fixer the checker never reports em dashes, right arrows, a missing final newline or bad UTF-8; no trailing white space if carriage returns only end lines; no blank after a comment unless the text was generated |
| TextPolicyLaws.TrailingSpaceExactly | internal/textpolicy/check.go:99-103 | For every file the fixer touches: trailing white space is reported of the fixed text exactly when an input line has a blank before a carriage return that the fixer uncovers, and passes the guards of both dropping branches |
| TextPolicyLaws.TrailingSpaceFromInput | internal/textpolicy/check.go:99-103 | A test on single lines: no such line means no report, such a line that is not droppable means a report, and in files without comments both are exact |
| TextPolicyKept.StaysExactly | internal/textpolicy/fix.go:43-94 | The lines of the output are exactly the normalised ones that the filter passes and that are not superfluous where it puts them |
| TextPolicyLaws.TrailingSpaceRemains | internal/textpolicy/fix.go:43-57 | A file where it happens: a blank and two carriage returns at the end of a line |
| TextPolicyLaws.NoBlankAfterCommentAfterFix | internal/textpolicy/check.go:125-129 | No blank line after a comment is left, also for generated text that stays generated |
| Documentation.Repository.DeleteSectionTx | backend/internal/documentation/repository.go:170-185 | Articles first, section second, event third; whatever statement fails, the state is as before |
| Documentation.Repository.DeleteArticleTx | backend/internal/documentation/repository.go:235-246 | Tombstone, revision and event, or nothing |
| Documentation.Repository.ReorderTx | backend/internal/documentation/repository.go:248-273 | Row by row; if one row is not a live row of the documentation, or the database breaks, nothing has changed |
| Documentation.Repository.CreateSectionRow | backend/internal/documentation/repository.go:157-162 | Inserts with the next display order, which is above that of every live section of the documentation |
| Documentation.Repository.CreateArticleRow | backend/internal/documentation/repository.go:197-212 | Inserts only with no section or a live one of the same documentation |
| Documentation.Repository.UpdateArticleRow | backend/internal/documentation/repository.go:214-233 | Updates only the expected revision, with the same section guard |
| Documentation.Repository.Restore | backend/internal/documentation/trash_provider.go:66-101 | The three restores with their guards, errors and rollback |
| DocumentationAnswers.ArticleUpdates | backend/internal/documentation/repository.go:214-233 | An article is updated exactly if it is live, at the expected revision, goes to no section or a live one of its documentation, and takes a free slug; and what it then is |
| DocumentationAnswers.ArticleCreation | backend/internal/documentation/repository.go:197-212 | One is created under the same conditions on section and slug, at revision 1 |
| DocumentationAnswers.ArticleDeletion | backend/internal/documentation/repository.go:235-246 | Deleting marks a live article with its actor, raises its revision and writes one event |
| DocumentationAnswers.SectionDeletion | backend/internal/documentation/repository.go:170-185 | Deleting a section marks it, takes it off its live articles, and leaves the deleted ones alone |
| DocumentationAnswers.Reordering | backend/internal/documentation/repository.go:248-273 | A reordering succeeds exactly if every item names a live row of the documentation |
| DocumentationAnswers.ReorderedRows | backend/internal/documentation/repository.go:248-273 | Then each named row has the order of its last item, every other row its own, and the documentation its next revision |
| DocumentationAnswers.ArticleRestore | backend/internal/documentation/trash_provider.go:66-101 | When an article comes back: deleted, in a live documentation, with a live section or none, for a manager, the owner or the one who deleted it, under a free slug; a conflict means only the slug is in the way |
| DocumentationAnswers.SectionRestore | backend/internal/documentation/trash_provider.go:66-101 | And a section |
| DocumentationAnswers.DocRestore | backend/internal/documentation/trash_provider.go:66-101 | And a documentation |
| DocumentationRuns.ApplyKeepsIntegrity | backend/internal/documentation/repository.go:75-273 | Every operation keeps the references between documentations, sections and articles, deleted articles included |
| DocumentationRuns.LiveArticlesHaveLiveSections | backend/internal/documentation/trash_provider.go:78-82 | In every reachable state a live article has no section or a live one of its own documentation, although restoring never compares the documentations |
| DocumentationRuns.NoLostUpdate | backend/internal/documentation/repository.go:214-233 | Of two article updates expecting one revision, whatever runs in between, at most one succeeds |
| DocumentationRuns.LiveSlugsAreUnique | backend/internal/documentation/trash_provider.go:78-82 | In every reachable state no two live articles of a documentation share a slug up to case: no restore brings back a taken one |
| DocumentationRuns.RestoreUndoesDelete | backend/internal/documentation/trash_provider.go:78-82 | In every reachable state whoever deletes an article of a live documentation can restore it at once, and gets it back two revisions later |
| DocumentationRuns.RestoredSectionIsEmpty | backend/internal/documentation/repository.go:170-185 | In every reachable state restoring a deleted section brings back the section, not its live articles |
| Forum.Service.GetThread | backend/internal/forum/service.go:55-65 | Read-through: the live entry, or the repository row, which is then cached for five minutes |
| Forum.Service.CreateThreadIn | backend/internal/forum/service.go:95-102 | Inserts the row, then invalidates |
| Forum.Service.UpdateThreadRow | backend/internal/forum/service.go:104-115 | Updates a live thread into a live category, then invalidates |
| Forum.Service.DeleteThreadRow | backend/internal/forum/service.go:117-127 | Tombstones, then invalidates |
| Forum.Service.LikeThread | backend/internal/forum/repository.go:510-529 | Only a visible thread can be liked; the count is that of the active likes |
| Forum.Service.UnlikeThread | backend/internal/forum/repository.go:531-542 | Takes back the like, then invalidates |
| Forum.Service.CreateCommentIn | backend/internal/forum/repository.go:759-778 | Insert into a visible thread, increment, invalidate |
| Forum.Service.DeleteCommentRow | backend/internal/forum/repository.go:791-809 | Only a comment of a visible thread; tombstone and decrement in one statement |
| Forum.Service.RestoreRow | backend/internal/forum/trash_provider.go:81-146 | Clears the tombstone of an authorised row with an active parent, counts a comment again, and leaves the cache alone |
| Forum.Service.RestoreFailure | backend/internal/forum/trash_provider.go:148-214 | For a restore that did not succeed, exactly its outcome; a conflict exactly when the same call would succeed with the parents live |
| ForumAnswers.ThreadsShown | backend/internal/forum/repository.go:143-206 | A thread is shown while it and its category are live |
| ForumAnswers.ThreadCreation | backend/internal/forum/repository.go:398-411 | One can be created in every category there is a row for, a deleted one included, and is shown only in a live one |
| ForumAnswers.ThreadUpdate | backend/internal/forum/repository.go:413-438 | A live thread can be edited into a live category, even out of a deleted one; author, counter and likes stay |
| ForumAnswers.Deletions | backend/internal/forum/repository.go:440-454 | Deleted threads, and those of deleted categories, are shown no more |
| ForumAnswers.Likes | backend/internal/forum/repository.go:510-542 | A like adds its user once, if the thread is shown, and taking it back removes the user and nobody else |
| ForumAnswers.CommentCreation | backend/internal/forum/repository.go:759-778 | A comment can be added exactly to a thread that is shown, which then has one more reply |
| ForumAnswers.CommentDeletion | backend/internal/forum/repository.go:791-809 | A live comment of a thread that is shown can be deleted, and the thread has one reply less |
| ForumAnswers.Restores | backend/internal/forum/trash_provider.go:81-146 | When a category, a thread and a comment come back, and what they are then |
| ForumAnswers.CachedFor | backend/internal/forum/cache.go:57-84 | A thread read past the cache is kept for 300 s and then read again |
| ForumRuns.DroppedCommentConserves | backend/internal/forum/repository.go:791-809 | A live comment is counted, so the decrement meets a counter of at least one and keeps it exact |
| ForumRuns.ReplyCountsAreExact | backend/internal/forum/repository.go:759-809 | In every reachable state each counter is the number of comments of the thread that are not deleted |
| ForumRuns.ClampNeverBites | backend/internal/forum/repository.go:791-809 | The floor at zero is never used |
| ForumRuns.OnlyTouchedChanges | backend/internal/forum/service.go:95-196 | An operation of the service changes the view of no thread but the one it invalidates |
| ForumRuns.GetThreadIsCurrent | backend/internal/forum/service.go:55-65 | After any sequence of service operations a thread is read as the repository has it |
| ForumRuns.StalenessIsBounded | backend/internal/forum/cache.go:19-84 | With category deletions and restores too, a thread that is read is what the repository had within the last five minutes |
| ForumRuns.DeletedCategoryIsStillServed | backend/internal/forum/service.go:50-52 | The bypass is real: a cached thread is served after its category is gone |
| ForumRaces.RacingStaleness | backend/internal/forum/service.go:55-65 | With read, fill, write and invalidation as separate steps of racing calls, a served thread is what the repository answered before a fill of the last five minutes |
| ForumRaces.LateFillIsStale | backend/internal/forum/cache.go:74-97 | The race is real: a fill after the invalidation serves a deleted thread |
| ForumLedger.CounterIsExactIff | backend/internal/forum/repository.go:759-809 | Under any interleaving of the statements a counter is exact precisely when the decrements cut off at zero equal the increments outstanding or lost |
| ForumLedger.OrderlyRunsCount | backend/internal/forum/repository.go:759-809 | If no increment fails or is skipped and no comment goes while an increment of its thread is outstanding, counter and outstanding increments are the live comments |
| ForumLedger.MoveBalances | backend/internal/forum/repository.go:759-809 | Every single statement keeps counter + outstanding + lost = live comments + cut off |
| ForumLedger.StatementsMakeAComment | backend/internal/forum/repository.go:759-778 | The two statements without anything in between are one creation |
| ForumLedger.DeletedInBetween | backend/internal/forum/repository.go:759-809 | A comment deleted between its two statements leaves the counter one too high |
| Corpus.WriteCorpusFrame | backend/internal/bible/repository.go:250-260 | Appends the framed name and bytes to what has been hashed |
| Corpus.DecodeEncode | backend/internal/bible/repository.go:250-260 | A decoder recovers a frame and what follows it |
| Corpus.DecodeAllEncoded | backend/internal/bible/repository.go:250-260 | And a whole sequence of frames |
| Corpus.FramingIsInjective | backend/internal/bible/repository.go:250-260 | Frame sequences within the length bounds that give the same bytes are equal |
| CorpusAnswers.FrameLayout | backend/internal/bible/repository.go:250-260 | The bytes of a frame: four for the length of the name, highest first, the name, eight for the length of the file, and the file |
| Corpus.ValidateBook | backend/internal/bible/repository.go:262-283 | Accepts exactly the books whose chapter and verse keys are the decimals from 1 on, with text in every verse, and counts the verses |
| Corpus.KeysAreDecimals | backend/internal/bible/repository.go:262-283 | Containing the decimals up to their number is, for a set of keys, being those decimals |
| CorpusAnswers.VersesAreCounted | backend/internal/bible/repository.go:262-283 | The number of verses counts every verse of every chapter once |
| Corpus.ValidateSpans | backend/internal/bible/repository.go:220-232 | Comparing neighbours accepts exactly the spans that lie in the text and are pairwise disjoint and ordered |
| Corpus.NormalizeBookKey | backend/internal/bible/repository.go:285-292 | The loop over double dashes squeezes every run of dashes into one |
| Corpus.BookKeyIsShaped | backend/internal/bible/repository.go:285-292 | No capitals, underscores, spaces, double dashes or dashes at the ends are left |
| CorpusAnswers.KeyIsWords | backend/internal/bible/repository.go:285-292 | A book key is the words of its text, cut at dashes, underscores and spaces, in lower case and joined by single dashes |
| Corpus.NormalizingTwice | backend/internal/bible/repository.go:285-292 | Normalising twice is normalising once exactly when the text, trimmed and with dashes, underscores and spaces taken off its ends, is empty or has no white space there |
| Corpus.SpaceBetweenDashes | backend/internal/bible/repository.go:285-292 | Any other white space between dashes is a key the first time only |

## Left out

- RateLimit.AllowanceExact: floating-point rounding is not modelled, the formula is computed over the reals.
- RateLimit.Limiter.JailedCount: SCAN is taken to return every key that is present, each once.
- RateLimit.Limiter.AdaptiveAllowance: Redis does not fail here, so the branch that returns the base limit on an error is only in the interleaving.
- RateLimit.Limiter.DEFCONRateLimit: Redis errors and the open failure on them are in RateLimitInterleaving, not in this method; the second-factor promotion is a parameter of three values, and the clock ticks in whole seconds, so that TTL replies are exact.
- RateLimitRuns.JailedIpStartsFresh: TTL replies rounded to the nearest second, which let a request through in the last half second of a jail key, are not modelled.
- RateLimitRuns.ThroughputBound: requests run one at a time and Redis does not fail; the interleaved bound is per counter lifetime.
- RateLimit: Cloudflare pushes, telemetry, Retry-After headers and the user bypass keys do not take part in the decisions modelled.
- RecoveryStore: bcrypt, TOTP, tokens and e-mail; lower-casing covers ASCII letters only.
- EnvStore.EnvValue: the 64 KB limit of the line scanner, file permissions and read errors other than a missing file.
- FrappeReport.CmdFrappeProvision: failures of files, compose and the provisioning itself between the choice of the cluster and the printing.
- EnvDefaults.SyncEnvFileDefaults: the returns after a failed read or write of an existing file; the further migrations of client files (canonical URLs, legacy paths, performance keys) are not part of it.
- NodeImport.Node.SetupClient: database dumps, symbolic links, permissions and failures of the disk; a write fails only where a directory or file is in the way.
- NodeImport.Node.ImportNode: the reading of archive and meta.json, the nginx configuration, and the single-client import, of which only the port with an override is modelled.
- TextPolicy.DecorativeCommentLines: works on characters, not on UTF-8 bytes, which differ only inside characters the scanner passes over; the laws beside it say what is flagged line by line, not for a whole file at once.
- TextPolicyCheck.Check: the emoji rule and its table, the messages, and the order and multiplicity of the reports.
- TextPolicyLaws.CheckAfterFix: says nothing of decorative comments and banners, which removals can create anew, nor of conflict markers, which the fixer keeps.
- Documentation: permission checks and text validation of the service, searching and listing; creating, editing and deleting documentations and editing sections are functions on the tables, not methods.
- Documentation.Repository.CreateArticleRow: the new display order is a parameter, required to be the next one.
- Forum: view counts, user names, editors, comment likes, events, route caches and Redis failures.
- Forum.Service.GetThread: encoding a thread as JSON and back is taken to be exact.
- Corpus.NormalizeBookKey: lower-casing covers ASCII letters, where the original lowers all of Unicode.
- Corpus: SHA-512 itself, JSON decoding, the catalog and the marker files.
- Hard deletes, cascades and user deletions in the database, and isolation levels below one statement or transaction at a time.
- HTTP, gRPC, WebSocket and Docker plumbing, nginx text, CLI dispatch, metrics, e-mail, media and TypeScript execution.
