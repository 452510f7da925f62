# A Dafny model of the SentinelLayer CLI core

A Dafny model of the parts of the CLI whose correctness depends on interleavings, crashes, budgets
or exact text handling, with proofs of what they promise. `dafny verify dfyconfig.toml` checks all
of it.

**Credentials on disk.** `KeyFile` is the protocol by which any number of processes publish and read
one encryption key; an event is one atomic step of one process, with failures, crashes and the
byte-by-byte fallback write, so a list of events is an arbitrary interleaving. `Base64` is the
encoding the key file's acceptance test rests on. `CredentialFile` replaces the credentials document
through temporary file, rename and backup; a ghost trace holds the folder after every file operation,
and every entry of it is a state a crash may leave. `SessionStore` is the session kept in two copies,
keyring and encrypted field, refined to one cell. `Rotation` is token rotation by any number of
overlapping rotators.

**Requests and login.** `ApiClient` is the request engine: retry loop, backoff, idempotency key and
breaker accounting over an arbitrary network and clock. `Breaker` is the per-origin circuit breaker
over whole runs of calls and its disk copy. `Idempotency` builds and checks keys. `LoginPoller` is the
login wait, a loop under a deadline, an attempt cap, a weighted error budget and a sleep budget, on
top of `ApiClient`; it returns a trace of what it did.

**Credential capabilities.** `CredentialVault` mints, re-binds, freezes and sends opaque credentials;
`UrlPath` is the raw path check, `UrlParser` the states of the URL parser it has to agree with, defined
apart from it down to the tests of single characters, and `UrlAgreement` the proofs that the two agree.

**Streaming.** `Utf8` is the incremental decoder and `StreamParser` the line splitter over arbitrary
read boundaries.

**Audit.** `WorkerPools` has the two bounded pools under arbitrary schedules, `SwarmSplit` the
partition of files, findings and budget, `AuditFindings` the deduplicated report and the packaged
index, `RunComparison` the comparison of two runs, `LegacyArgs` the argument printer and its reader.

`Text` holds trimming, case folding and list concatenation, `Reals` products of real numbers.

Most results come in two kinds: a member that describes a whole operation or run, and lemmas that say
in plain constants what its definitions make of single inputs (which statuses, which fields, which
lines), so that neither rests on the other's words.

## Where the code does not do what is expected of it

- The comment at src/auth/http.js:30-33 says failure counts survive across invocations. The loader
  (src/auth/http.js:46-67) drops every entry whose breaker is not open: `Breaker.LoadedStateIff` says
  exactly when the loaded state is the writer's, `Breaker.RestartForgetsFailures` gives the run.
- The message at src/auth/http.js:187 asks for a UUID or a prefixed UUID. Any text of at least 32
  letters, digits, `_` and `-` passes, and the UUID patterns accept nothing else
  (`Idempotency.ValidKeyIff`); `Idempotency.PlainTextIsValid` gives a key of neither form.
- An explicit idempotency key is what is validated, but an idempotency header the caller also set is
  what is sent (src/auth/http.js:238-244, 460-464): `Idempotency.SentKeyIsCheckedIff`.
- A token handed out by rotation can already be revoked: every handed token is live exactly when there
  is no second rotator or the stored session has no expiry (`Rotation.HandedLiveIff`). With the default
  lifetime of 365 days and threshold of 7 days no token issued in the run is near its expiry; then it is
  live exactly when there is no second rotator, or the stored session has no expiry or no id to revoke
  it by (`Rotation.HandedLiveIffFreshLast`). The stored token is live in any case.
- Two findings in different files can share a deduplication key, because path, line and message are
  joined by a character that paths may hold (src/audit/orchestrator.js:820-823): `AuditFindings.KeysMayCollide`
  gives the two, `AuditFindings.SameKeyIff` says that paths without a colon rule it out.
- A failure to remove the credentials document is swallowed (src/auth/session-store.js:849-853), and
  then the session stays readable: `SessionStore.ClearHidesIff`. A write that fails or dies after the
  keyring and before the document can already be visible, and can stay so after a second one that
  fails earlier: `SessionStore.InterruptedWriteShows`, `SessionStore.SecondInterruptionShowsFirst`.
- A writer that dies inside the fallback write of the key file leaves a file that no later call ever
  gets past. `KeyFile.TornKeyFileIsReachable` gives the run, from no files at all;
  `KeyFile.CreatorCanReturnIff` says of every reachable state whether a new call can still succeed.
- Two overlapping calls of freezeProcessTrustContext both pass the test at
  src/auth/credential-destinations.js:142, and the one that ends later wins:
  `CredentialVault.OverlappingFreezes` gives the run, `CredentialVault.FrozenForeverIff` the exact
  condition. The only caller in the repository (src/cli.js:260) awaits a single freeze, for which
  `CredentialVault.SoleFreezeIsFinal` holds.
- A connection error reaches the login poller with status 503, so it weighs 2 as a server error and
  not 1 as the branch for `NETWORK_ERROR` at src/auth/service.js:245-247 reads. That branch sees
  time-outs, and replies with a status below 500 whose body carries one of the two codes
  (`LoginPoller.PollErrorKinds`).
- Printing options and reading them back is the identity up to trimming exactly when no value begins
  with a dash and the severity classifier is not "off", which is not printed
  (`LegacyArgs.OptionsRoundTripIff`, `LegacyArgs.ClassifierReadsBackIff`).

## Model

| member | source | states |
|---|---|---|
| `Base64.DecodeEncode` | src/auth/session-store.js:172 | decoding undoes encoding for every byte sequence (section 4 of RFC 4648) |
| `KeyFile.AcceptIff` | src/auth/session-store.js:149-151 | a read is accepted as a key exactly when its trimmed text is that key's canonical encoding |
| `KeyFile.PartialKeyRejected` | src/auth/session-store.js:138-159 | no proper prefix of a key's encoding is ever accepted |
| `KeyFile.RunInv` | src/auth/session-store.js:138-200 | every step of every interleaving, with failures and crashes, keeps the protocol's invariant: one writer at most, the file a prefix of one eligible key's text, every returned key the accepted one |
| `KeyFile.KeyAgreement` | src/auth/session-store.js:138-200 | all calls that return a key, creators and readers of all processes, return the same key |
| `KeyFile.ValidKeyIsFinal` | src/auth/session-store.js:166-195 | once the primary file holds a valid key it never changes |
| `KeyFile.LegacyKeyWins` | src/auth/session-store.js:170-171 | with a valid legacy key and no primary at the start, the agreed key is the legacy key |
| `KeyFile.CreatedKeyIsReadable` | src/auth/session-store.js:161-164 | after a creator has returned, the next read by any reader gives that key |
| `KeyFile.ReaderAlone` | src/auth/session-store.js:138-164 | a reader that runs alone ends with the primary key, with the legacy key exactly when there is no primary file, with null exactly when there is neither, and throws on a file that is no key |
| `KeyFile.ReaderAnswers` | src/auth/session-store.js:161-164 | from any state and under any interleaving: a reader that answers null looked while there was no primary file, and there is no legacy file; having looked so it answers no key but the legacy one; otherwise the key it answers stood in the primary file when it looked |
| `KeyFile.BadFileIsReread` | src/auth/session-store.js:138-159 | in each of the five read loops a file that holds no key is read again five times and then refused |
| `KeyFile.LoopsStartAfresh` | src/auth/session-store.js:138-191 | every read loop, also the one that reads back what was published, starts with no read behind it |
| `KeyFile.PublishAlone` | src/auth/session-store.js:166-196 | with no primary file and no invalid legacy one, a creator that runs alone publishes the legacy key, or else the one it drew, and returns it |
| `KeyFile.CreatorCanReturnIff` | src/auth/session-store.js:138-200 | from every reachable state a new call can still return a key exactly when the primary file holds a valid key or is being filled, or is absent with the legacy file absent or valid |
| `KeyFile.TornKeyFileIsReachable` | src/auth/session-store.js:182-188 | with no files at the start, one fallback writer that dies leaves a state from which another call never returns a key, whatever the schedule |
| `KeyFile.TornKeyFileIsPermanent` | src/auth/session-store.js:152-156 | an invalid primary file nobody is filling stays, and no call that has not returned and is not reading the legacy file ever returns a key |
| `CredentialFile.Folder.RenameWithRetry` | src/auth/session-store.js:295-310 | one more atomic rename after every busy error and only after one, busy reported only after all attempts; on success the file has moved, on error nothing has changed, and every state in between is one of the two |
| `CredentialFile.Folder.ReplaceWithBackup` | src/auth/session-store.js:348-386 | no state on the way loses the old document or holds a torn one; normal end means the new document, an error means the old one in place or in the backup; the log says which operations ran and that a failed move was followed by the restoring one |
| `CredentialFile.Folder.WriteMetadata` | src/auth/session-store.js:460-503 | the same for a whole write, at every file operation, with all other files untouched; the log is that of a possible course: writing stops at its first failure, the move is tried up to three times, the backup path is taken exactly after three busy tries |
| `CredentialFile.ReturnsIffMoved` | src/auth/session-store.js:460-503 | over every such course: no error exactly when some move of the temporary file to the document worked, and so whenever no operation failed |
| `SessionStore.Credentials.WriteStoredSession` | src/auth/session-store.js:768-832 | refuses a blank URL or token untouched; otherwise the new state of document, keyring and key file, also when a keyring call, the key or the document throws |
| `SessionStore.Credentials.ReadStoredSession` | src/auth/session-store.js:505-544 | the token a reader gets, and the migration of a plaintext token as its only effect, also when the migration throws |
| `SessionStore.Credentials.ClearStoredSession` | src/auth/session-store.js:840-859 | completes unless the keyring throws; the state after it, with a failed removal leaving the document |
| `SessionStore.ClearDropsEntry` | src/auth/session-store.js:840-859 | a completed clear with a working keyring leaves no entry of the stored account and every other entry as it was; without a keyring none is touched |
| `SessionStore.WriteSetsEntry` | src/auth/session-store.js:768-832 | a completed write leaves the token under its account and in the sealed field, no entry of the account it replaces, and every other entry as it was |
| `SessionStore.MigrationSetsEntry` | src/auth/session-store.js:505-544 | a completed migration puts the plaintext token under the document's account, or the fallback one, and into the sealed field, and blanks it |
| `SessionStore.DoKeepsValid` | src/auth/session-store.js:602-685 | every completed call keeps the two copies in agreement and acts on the one cell they stand for |
| `SessionStore.StoreRefinesCell` | src/auth/session-store.js:602-859 | after any sequence of calls, with the keyring coming and going, the reader gets the token last written and not cleared |
| `SessionStore.ClearHidesIff` | src/auth/session-store.js:849-853 | after a clear nothing is readable exactly when the document went away or nothing was readable before |
| `SessionStore.InterruptedWriteShows` | src/auth/session-store.js:804-822 | on any store that completed and interrupted calls leave, and for a write that ends at any operation: exactly what a reader gets, the new token, the document's own copy, nothing, or what it would have got before |
| `SessionStore.SecondInterruptionShowsFirst` | src/auth/session-store.js:804-822 | the run of two interrupted writes after which the first one's token is read while the document still carries the one before both |
| `SessionStore.AnyRunReadsGiven` | src/auth/session-store.js:602-859 | after any run of completed and interrupted calls a reader gets nothing or a token that was there at the start or given to a write |
| `SessionStore.CompletedWriteRepairs` | src/auth/session-store.js:804-822 | a completed write repairs whatever an earlier call left behind |
| `SessionStore.InterruptedMigrationKeeps` | src/auth/session-store.js:505-544 | a migration that does not complete loses the token exactly when the document is lost |
| `Rotation.RunInv` | src/auth/service.js:427-480 | every interleaving of failing and crashing rotators keeps: revoked tokens were stored once and are not stored now, unpublished tokens have one owner |
| `Rotation.StoredTokenIsLive` | src/auth/service.js:427-480 | the stored token is never a revoked one |
| `Rotation.HandedTokenIsLive` | src/auth/service.js:722-747 | when rotations do not overlap, the token handed to a command is the stored one and live, also after a failed rotation |
| `Rotation.HandedLiveIff` | src/auth/service.js:722-747 | over all runs, every handed token is live at that moment exactly when there is at most one rotator or the stored session has no expiry |
| `Rotation.HandedLiveIffFreshLast` | src/auth/service.js:152-164 | the same when no token issued in the run is near expiry: live exactly with at most one rotator or a stored session without an expiry or an id |
| `Rotation.OnlyStoredTokenIsLive` | src/auth/service.js:442-473 | after clean rotations the stored token is the only live one ever issued |
| `Rotation.RotatesIff` | src/auth/service.js:152-163 | a new token is asked for exactly when the old one has a known expiry that is at most the threshold away, seven days when none or zero is given; nothing stored or revoked changes yet |
| `Rotation.PersistsThenRevokes` | src/auth/service.js:449-479 | what is stored is the issued session; after that exactly the old token is revoked, when it has an id and the request is not refused |
| `Idempotency.ValidKeyIff` | src/auth/http.js:168-183 | a key is valid exactly when its trimmed text has 32 or more characters, all from the key alphabet |
| `Idempotency.UuidIff` | src/auth/http.js:89 | the UUID pattern, character by character |
| `Idempotency.PlainTextIsValid` | src/auth/http.js:180-182 | an accepted key that matches neither UUID pattern |
| `Idempotency.BuiltKeyIsValid` | src/auth/http.js:194-209 | the key built for any operation name passes the check, and is a prefixed UUID when randomUUID worked |
| `Idempotency.SanitizedIsHyphenated` | src/auth/http.js:194-198 | the operation part is the lower-cased name's words with one dash between two, whatever else stood there, cut at 32 characters, or "mutation" |
| `Idempotency.SentKeyIsCheckedIff` | src/auth/http.js:238-244 | the key sent is the key checked exactly when option and header do not contradict each other |
| `Breaker.CountIsTrackedFailures` | src/auth/http.js:306-327 | for every run of calls from a fresh state, the count is the number of tracked failures since the start, the last success or the last cooldown, and the breaker is open exactly at five, all later calls falling in its cooldown |
| `Breaker.OpenIff` | src/auth/http.js:20-21 | after every run of calls the breaker refuses at a time exactly when five tracked failures were counted and the last is less than 30000 ms ago |
| `Breaker.FreshProcessAgrees` | src/auth/http.js:46-84 | a process that loads the file answers isCircuitOpen like the writer, for every origin and later time |
| `ApiClient.Client.FreshProcessAnswersAlike` | src/auth/http.js:46-84 | after any run of calls whose last write of the file worked, a fresh process that loads it answers like this one, for every origin and later time |
| `Breaker.LoadedStateIff` | src/auth/http.js:59-63 | the loaded state is the writer's exactly when the breaker is open or has no failures |
| `Breaker.RestartForgetsFailures` | src/auth/http.js:30-33 | four failures before a restart and one after it leave the breaker closed, five without one open it |
| `ApiClient.Client.IsCircuitOpen` | src/auth/http.js:306-318 | the answer, and the reset of an expired breaker as the only change |
| `ApiClient.Client.SendWithRetries` | src/auth/http.js:497-644 | all sends but the last failed transiently and were each followed by their backoff; the last one alone decides the result and the one breaker outcome; every send has the same key; the code after the loop is not reached |
| `ApiClient.Client.RequestJson` | src/auth/http.js:433-645 | key errors come before any breaker or network work and change nothing; an open breaker sends nothing; otherwise one run of the retry loop; the breaker moves by one outcome only, and memory and file agree as long as writing works |
| `ApiClient.Client.RequestJsonMutation` | src/auth/http.js:664-706 | refuses other methods and blank names; a built key always passes the check; otherwise as requestJson with that key, the call's times included |
| `ApiClient.KeyOfMutation` | src/auth/http.js:693-694 | the caller's own key is used, and only without one a key is built from the operation name |
| `ApiClient.RefusedIff` | src/auth/http.js:461-485 | exactly which mutations are refused before anything is sent, with which status and code, from the raw option, header and name |
| `ApiClient.Client.TemporaryFailuresAreRetried` | src/auth/http.js:23-27 | every send but the last met one of the seven statuses, a network failure or an abort; when the last one did too, the limit of sends is used up and the breaker counts exactly one, opening at five |
| `ApiClient.Client.OtherRepliesAreNeutral` | src/auth/http.js:23-27 | 401, 403, every other status that is not temporary, and each malformed 2xx reply end the call with their error and leave the breaker as it was met |
| `ApiClient.Client.GoodRepliesClear` | src/auth/http.js:527-565 | a 2xx reply with a JSON body is the result and clears the breaker; so does an allowed empty one, 204 and 205 included |
| `ApiClient.Client.FirstReplyMayDecide` | src/auth/http.js:580-603 | a first reply that is no temporary failure ends the call after one send |
| `ApiClient.Client.RefusedTokensNeverOpen` | src/auth/http.js:24-27 | however many requests in turn are answered 401 or 403, each sends once and the breaker stays closed |
| `ApiClient.DefaultBackoffs` | src/auth/http.js:296-304 | the default pauses are 250, 500, 1000 and then 2000 ms |
| `ApiClient.BackoffFollowsServer` | src/auth/http.js:296-304 | a server's wish is granted up to 2000 ms; no pause is longer or negative |
| `ApiClient.Client.CallIsBounded` | src/auth/http.js:296-304 | at most retries + 1 sends, one for a method that is not retried, and at most 2000 ms of backoff per retry |
| `ApiClient.Client.RequestInTurn` | src/auth/http.js:433-645 | requests to one origin in turn: every one is answered, those with a bad key at once; the others, in order, are all that happened: their sends and keys are the client's, each meets the breaker its predecessor left, and other origins' breakers are untouched |
| `ApiClient.Client.BreakerIsExplained` | src/auth/http.js:306-327 | over such a run from a closed breaker, the count is the tracked failures since the right point, and why nothing was sent while it was open |
| `LoginPoller.MakePlan` | src/auth/service.js:215-227 | the attempt cap is between 1 and 600, the error budget at least 8, the sleep budget at least 2000 ms, the pauses ordered |
| `LoginPoller.AttemptsFillTimeout` | src/auth/service.js:224-227 | the attempt cap is the least number of intervals that fills the timeout, at least one and at most 600 |
| `LoginPoller.PlanFitsTimeout` | src/auth/service.js:215-223 | the poll interval is the one asked for, rounded, 250 ms at least; the sleep budget is four fifths of the timeout rounded down, or 2000 ms; the longest pause a quarter of it, at most 5000 ms and never below the interval |
| `LoginPoller.ErrorsFitTimeout` | src/auth/service.js:222 | the error budget is three times the least number of longest pauses that fills the timeout, or eight |
| `LoginPoller.DefaultPlan` | src/auth/service.js:215-227 | the numbers of the default wait |
| `LoginPoller.PauseFollowsServer` | src/auth/service.js:250-272 | a server's wish is met between the least and the longest pause; the least is 250 ms, 2000 after three errors |
| `LoginPoller.PauseWithinLongest` | src/auth/service.js:250-272 | without a wish the pause is at least the least one and, when above it, at most the longest plus the jitter |
| `LoginPoller.DefaultPauses` | src/auth/service.js:250-272 | the default pauses before jitter |
| `LoginPoller.PausesStopGrowing` | src/auth/service.js:258-259 | from the seventh poll on the pause before jitter stays the same |
| `LoginPoller.PollCallIs` | src/auth/service.js:279-293 | every poll is a POST with a fresh valid key, at most one retry and a first backoff of 250 ms |
| `LoginPoller.Poll` | src/auth/service.js:278-294 | one poll makes at most two sends; its result is that of its last reply or of the open breaker, and it ends the wait, exceeds the error budget or leaves the wait going |
| `LoginPoller.PollCliAuthSession` | src/auth/service.js:207-372 | terminates; the trace is all the client did: its polls are the calls made, in order, from the client's state before to its state after; every time left is a reading of the client's clock against the deadline, and polls and pauses only begin with more than 250 ms left; attempt cap, weighted error budget and sleep budget are kept; every pause is the due one and fits the time left; the ending is the one the trace and the clock justify |
| `LoginPoller.NoSleepPastDeadline` | src/auth/service.js:318-335 | no sleep of the wait reaches past the deadline |
| `LoginPoller.ApprovedIff` | src/auth/service.js:338-352 | an approved payload with a token is returned exactly when a poll brought it |
| `LoginPoller.PollErrorKinds` | src/auth/service.js:235-249 | for every reply, exactly when it is weighed as a rate limit, a server error or a network error |
| `LoginPoller.EndingIsLastReplys` | src/auth/service.js:338-355 | over every finished wait: it ends approved exactly when its last reply is an object whose trimmed lower-cased status is "approved" and whose token is not empty, rejected exactly for the three statuses, expired exactly for "expired", with an error of its own exactly when the last reply is one of no transient kind |
| `LoginPoller.OtherRepliesKeepWaiting` | src/auth/service.js:357-364 | any other object reply, a pending one for instance, is followed by a pause unless the time is out |
| `LoginPoller.ErrorsCost` | src/auth/service.js:298-335 | an error reply is taken into the budget under the kind its status gives, or ends the wait |
| `LoginPoller.PausesAreDue` | src/auth/service.js:316-332 | over every finished wait: each pause fits the time left; after an error it is the server's wish as far as allowed, and without a wish it is bounded by two seconds or the longest pause with its jitter |
| `LoginPoller.BudgetsInNumbers` | src/auth/service.js:300-330 | 3 for a rate limit, 2 for a server error and 1 for a network error never add up to more than the budget; a wait that ends for its budget ends with an error or a pause that would exceed it |
| `CredentialVault.Vault.ResolveTrustContext` | src/auth/credential-destinations.js:153-156 | for the process environment the frozen context once there is one, whatever the settings; otherwise a new one with the origins the settings name; the invariant is kept |
| `CredentialVault.Vault.GatewayCredential` | src/auth/credential-destinations.js:173-180 | what is re-bound was minted for the user and bound to an API; the new credential carries the same token, reaches the gateway only and cannot be re-bound; a refusal changes nothing; the invariant is kept |
| `CredentialVault.Vault.CredentialedRequest` | src/auth/credential-destinations.js:239-246 | sends, with the credential's own token, exactly when the URL is on the origin the credential was minted for and its path is plain; the invariant is kept |
| `CredentialVault.RunInv` | src/auth/credential-destinations.js:105-111 | every run of minting, re-binding, freezing and sending keeps each credential bound to the origin of its birth |
| `CredentialVault.SendsStayHome` | src/auth/credential-destinations.js:209-215 | every send of every run went to the origin its credential was minted for, with that credential's own token |
| `CredentialVault.SendsNeverClimb` | src/auth/credential-destinations.js:84-94 | no send of any run goes to a URL whose path has ".." between two slashes or backslashes, or changes when the URL parser resolves dot segments |
| `CredentialVault.ApiPrecedence` | src/auth/credential-destinations.js:123-135 | the API is where the environment says, else the global config, else the default |
| `CredentialVault.ReboundOnce` | src/auth/credential-destinations.js:173-185 | a re-bound credential is bound to the gateway of a context of the module and comes from a user credential bound to the API, never from a re-bound or admission one |
| `CredentialVault.FrozenForeverIff` | src/auth/credential-destinations.js:141-147 | after a freeze the origins stay the same in every continuation exactly when no freeze still on its way read other settings |
| `CredentialVault.OverlappingFreezes` | src/auth/credential-destinations.js:141-147 | the run of two overlapping freezes: the origins change exactly when the two read settings for other origins |
| `CredentialVault.SoleFreezeIsFinal` | src/auth/credential-destinations.js:141-156 | a freeze that ends alone fixes the context, with the origins its settings name, for every continuation |
| `UrlPath.DecodeWholePath` | src/auth/credential-destinations.js:74-82 | a path decodes exactly when every segment does, and splits into the split decoded segments |
| `UrlPath.CommuteIff` | src/auth/credential-destinations.js:74-94 | decoding then splitting equals splitting then decoding exactly when no decoded segment holds a separator |
| `UrlPath.DecodeIff` | src/auth/credential-destinations.js:77 | a segment decodes to a text exactly when it spells it: each character itself, unless it is "%", or the escapes of its UTF-8 bytes in hexadecimal digits of either case; everything else is refused (section 19.2.6.2 of ECMA-262) |
| `UrlAgreement.DoubleDotIff` | src/auth/credential-destinations.js:81 | a segment is a double dot to the URL parser, percent-encoded or not, exactly when it decodes to ".." |
| `UrlAgreement.ResolveKeepsIff` | src/auth/credential-destinations.js:90-94 | dot-segment removal leaves a path alone exactly when it has no dot segment |
| `UrlAgreement.ParserAgrees` | src/auth/credential-destinations.js:90-94 | for every URL the parser accepts, its path segments are those of the text the check looks at, through preprocessing, scheme, slashes, authority and path states |
| `UrlAgreement.PathCheckIff` | src/auth/credential-destinations.js:84-94 | for every URL the parser accepts, the check passes exactly when resolving dot segments moves nothing, the path decodes, and decoding commutes with cutting as the parser cuts |
| `UrlAgreement.ClimbingIsRefused` | src/auth/credential-destinations.js:84-94 | a URL whose path text has ".." between two characters of "/" or "\\", or at its end, never passes |
| `UrlAgreement.ParsedIff` | src/auth/credential-destinations.js:84-94 | the parser accepts exactly the texts made of http or https in any case, a colon, any slashes of either kind, an authority in order and a path (section 4.4 of the WHATWG URL Standard) |
| `UrlAgreement.DotsMean` | src/auth/credential-destinations.js:84-94 | in the parser a double dot takes back the segment before it and a single dot does nothing; at the end either leaves an empty segment |
| `Utf8.DecodeConcat` | src/ai/client.js:288 | decoding piece by piece equals decoding at once, wherever the bytes are cut |
| `Utf8.DecodeEncode` | src/ai/client.js:279 | a fresh decoder gives every text back from its encoding, less one byte order mark in front |
| `Utf8.BrokenIsReplaced` | src/ai/client.js:279-288 | a byte no encoding goes on with turns the bytes begun before it into one U+FFFD and is read afresh; where nothing had begun it is one itself |
| `Utf8.TruncatedIsReplaced` | src/ai/client.js:303-308 | bytes that end inside a character become one U+FFFD at the end |
| `StreamParser.TextOfEncoding` | src/ai/client.js:279-308 | a stream that carries a text is read as that text, less one byte order mark in front |
| `StreamParser.SplitAppend` | src/ai/client.js:289-290 | text that arrives later only touches the line still open, also when a cut falls inside CRLF |
| `StreamParser.DataLineGives` | src/ai/client.js:78-88 | white space, "data:", white space, a payload that is trimmed, not empty and not "[DONE]", and white space give that payload |
| `StreamParser.DataLineIsMadeSo` | src/ai/client.js:78-88 | a line that gives a payload is made in that way |
| `StreamParser.StreamSaysItsDataLines` | src/ai/client.js:278-322 | for any data lines and other lines, ended by LF or CRLF, and any cutting of their bytes: the stream says the non-empty texts of its payloads, in order |
| `StreamParser.ParseStreamResponse` | src/ai/client.js:278-322 | for every cutting of every byte stream, onChunk gets the deltas of the whole stream read at once, and the text is their trimmed concatenation |
| `WorkerPools.PoolIsBounded` | src/audit/orchestrator.js:191-212 | under every schedule at most `limit` workers run, no more calls than that are open, and items are started in list order, each item at most once |
| `WorkerPools.PoolRunsEachOnce` | src/audit/orchestrator.js:191-212 | when the pool returns, every item has been run exactly once |
| `WorkerPools.PoolTerminates` | src/audit/orchestrator.js:191-212 | every turn of a runner that can go on uses up work, so no schedule of such turns is longer than the work there is |
| `WorkerPools.PoolFinishes` | src/audit/orchestrator.js:191-212 | when no runner can go on, the pool has finished or a worker has failed |
| `WorkerPools.SortedIsUnique` | src/audit/orchestrator.js:787 | with distinct agent ids there is one sorted arrangement |
| `WorkerPools.ScheduleDoesNotShow` | src/audit/orchestrator.js:787 | the sorted results do not depend on the schedule, the number of runners or the order of the items |
| `WorkerPools.SwarmKeepsOrder` | src/audit/persona-loop.js:219-236 | under every schedule the bound on calls in flight is kept, one at a time for a bound below one; the loop waits only with the bound reached; calls start, and results are returned, in input order |
| `WorkerPools.SwarmProgress` | src/audit/persona-loop.js:219-236 | the swarm pool is never stuck: while it is not done, a step is possible |
| `WorkerPools.SwarmTerminates` | src/audit/persona-loop.js:219-236 | every run of moves that do something has at most two per item, and exactly two when all calls have settled |
| `AuditFindings.Reconcile` | src/audit/orchestrator.js:817-831 | the loop computes the first finding of every key, in order |
| `AuditFindings.BuildFindingsIndex` | src/audit/package.js:20-45 | the separate loop computes the same list with numbers, owners and respelled paths, cut at 500 |
| `AuditFindings.FirstsAreFirst` | src/audit/orchestrator.js:817-831 | a candidate is kept exactly when no earlier one has its key, in the candidates' order |
| `AuditFindings.OwnerIsFirstAgent` | src/audit/package.js:23-41 | a kept finding belongs to the first agent that reports its key, and is that agent's first with it |
| `AuditFindings.OwnerHasLeastId` | src/audit/orchestrator.js:787 | with the agents sorted by id, the owner's id is the least of all agents that report the key |
| `AuditFindings.FirstsCover` | src/audit/orchestrator.js:820-826 | the kept keys are pairwise distinct and cover every candidate's key |
| `AuditFindings.SameKeyIff` | src/audit/orchestrator.js:820-823 | findings whose paths have no colon share a key exactly when they agree in path with slashes, line and folded message |
| `AuditFindings.KeysMayCollide` | src/audit/orchestrator.js:820-823 | two findings in different files that share a key |
| `AuditFindings.IndexIsTheReport` | src/audit/package.js:44-45 | the index is the report's list with its paths respelled, numbered from one, with their owners, of length min(500, unique count) |
| `AuditFindings.SeveritySummary` | src/audit/orchestrator.js:83-98 | the exact count of every severity over the whole list, blocking exactly when a P0 or P1 is there |
| `AuditFindings.ReconcileAndSummarize` | src/audit/orchestrator.js:817-831 | the summary counts the whole deduplicated list, not the packaged part of it |
| `AuditFindings.IndexIsDeterministic` | src/audit/package.js:20-45 | from the agents to the packaged index, scheduling leaves no trace |
| `RunComparison.BuildIndex` | src/audit/replay.js:51-54 | keys in the order of first occurrence, under each the last finding with that fingerprint |
| `RunComparison.MissingIsAdded` | src/audit/replay.js:56-68 | the added findings carry exactly the fingerprints only the candidate has, one finding each |
| `RunComparison.CompareAuditReports` | src/audit/replay.js:48-87 | counts, delta, equivalence and the capped lists of added and removed findings |
| `RunComparison.EquivalentIff` | src/audit/replay.js:70 | equivalence is equality of fingerprint sets |
| `RunComparison.EquivalenceRelation` | src/audit/replay.js:70 | it is reflexive, symmetric and transitive |
| `RunComparison.Conservation` | src/audit/replay.js:56-68 | distinct base plus added equals distinct candidate plus removed |
| `RunComparison.Triangle` | src/audit/replay.js:56-68 | what is added from a to c was added from a to b or from b to c |
| `RunComparison.CompareBothWays` | src/audit/replay.js:38-87 | swapping the reports swaps added and removed and negates the delta |
| `RunComparison.DeltaAdds` | src/audit/replay.js:38-46 | the base counts plus the delta are the candidate's, and blockingChanged says whether blocking differs |
| `RunComparison.SameFingerprintIff` | src/audit/replay.js:12-19 | findings without a bar in severity or path share a fingerprint exactly when they agree in severity, path, line and message as normalized |
| `RunComparison.CutKeepsFront` | src/audit/replay.js:85-86 | the lists returned are the first 500 findings, or all |
| `SwarmSplit.UniqueIsDistinct` | src/audit/persona-loop.js:67-87 | the paths left are exactly the non-blank normalized ones given, each once |
| `SwarmSplit.UniqueKeepsFirsts` | src/audit/persona-loop.js:67-87 | the kept files come in the order of their first mention, each with the line count it had there |
| `SwarmSplit.PosixMeans` | src/audit/persona-loop.js:63-65 | a path loses the white space around it, its backslashes become slashes, and nothing else changes |
| `SwarmSplit.PartitionAuditPersonaFiles` | src/audit/persona-loop.js:185-199 | the loop cuts the deduplicated list into chunks of the floor of the size, at least one, 12 when no number is given |
| `SwarmSplit.SizeMeans` | src/audit/persona-loop.js:185-193 | the part size is the floor of the number given, at least one, and 12 without a number |
| `SwarmSplit.ChunksPartition` | src/audit/persona-loop.js:185-199 | the parts joined are the list, all but the last are full, their number is the least possible |
| `SwarmSplit.FindingRouting` | src/audit/persona-loop.js:89-98 | a finding in scope reaches exactly one subagent, one without a file all, one out of scope none |
| `SwarmSplit.RoutingConserves` | src/audit/persona-loop.js:1148-1185 | the subagents' finding lists together have exactly the size that routing promises |
| `SwarmSplit.CostIsDivided` | src/audit/persona-loop.js:205 | the children's cost caps add up to the parent's |
| `SwarmSplit.CapIsDivided` | src/audit/persona-loop.js:206-214 | the children's integer caps add up to at most max(parent, children), and with enough for all less than one per child is lost |
| `LegacyArgs.ArgumentList.AppendValue` | src/commands/legacy-args.js:22-27 | pushes the flag and the trimmed text, or nothing for a blank one |
| `LegacyArgs.BuildLegacyArgs` | src/commands/legacy-args.js:41-76 | the base arguments followed by every option of the plan, in order |
| `LegacyArgs.ValueAfterFlag` | src/legacy-cli.js:874-882 | what stands after the first mention of a flag is its value, refused when blank, missing or beginning with a dash |
| `LegacyArgs.FoundAtOwnPlace` | src/legacy-cli.js:874-882 | a printed value is found under its own flag, or refused when it begins with a dash |
| `LegacyArgs.PresentIffPrinted` | src/legacy-cli.js:884-886 | a flag is present exactly when its option was printed |
| `LegacyArgs.OptionsRoundTripIff` | src/commands/legacy-args.js:41-76 | every option, read by its own flag, comes back unchanged up to trimming and unset ones as absent, exactly when no value begins with a dash and the classifier is not "off" |
| `LegacyArgs.ClassifierReadsBackIff` | src/commands/legacy-args.js:60 | a severity classifier reads back exactly when it is not "off" |

## Left out

- Real I/O: fetch, the file system, child processes, the system keyring, timers. Their steps are events, nondeterministic choices or arbitrary sequences of replies and clock readings.
- AES-GCM and SHA-256: a sealed box that opens under its own key, and an arbitrary digest function.
- JSON parsing and the chunk shapes of the model providers: an arbitrary function from payload to delta, and replies classified by what their body is.
- Reading a key file in the middle of another process's single write call: a read sees whole bytes written so far, as the model writes byte by byte.
- fsync, chmod and mkdir: best effort in the code, no effect in the model.
- CredentialFile.Folder.WriteMetadata: requires that the temporary and backup names are not in use, which the code gets from process id, time and random bytes; two concurrent writers of one document are not modelled.
- SessionStore.Credentials.ReadStoredSession: a keyring service name other than the default, and a document that cannot be read or parsed.
- SessionStore.StoreRefinesCell: assumes an intact key file; session fields other than the token and the keyring account.
- Rotation.StoredTokenIsLive: storing is one atomic replace, file storage, no logout or explicit revocation beside the rotators.
- The plaintext migration racing a rotation, and breaker counts shared between live processes.
- ApiClient.Client.RequestJson: request bodies, headers other than the idempotency key, request ids, error message texts, the timeout of one fetch (a reply may be an abort at any time), and the checks on credential and Authorization arguments.
- parseRetryAfterMs, Date.parse and, outside schemes and payload statuses, toLowerCase: their results are parameters.
- Retries and delays given as NaN, infinite or text: numbers are reals.
- LoginPoller.PollCliAuthSession: the jitter factor is any function of the attempt number, where the code hashes the session id; payload fields are texts.
- Starting the session before the poll and fetching the user after it.
- CredentialVault: originOf is an arbitrary function from URL text to origin; assertTrustedApiUrl, checkedTransport, credentialHmac, exportCredentialToken and the redirect setting are not modelled.
- UrlAgreement.PathCheckIff: http(s) URLs without a base; the authority is taken whole, an arbitrary predicate saying whether its user information, host and port parse; percent-encoding of other characters by the parser, and the query. Strings are sequences of scalar values, so lone surrogates do not occur.
- StreamParser: the reply without a readable body (src/ai/client.js:269-276), and callbacks that throw.
- WorkerPools: a swarm worker that throws (the callback in the code catches); a width that is not a number; localeCompare is an arbitrary integer rank of agent ids.
- AuditFindings, RunComparison: the texts of key, fingerprint and severity are arbitrary functions of a finding; rule ids, suggested fixes and the padded text of an index id; trimming and case folding of the fields that a comparison lists.
- SwarmSplit: how a file's line count is read from its several field names, and the thresholds that decide whether to split (src/audit/persona-loop.js:155-183).
- LegacyArgs: option values that are not texts; the commands that read other flags (src/legacy-cli.js:1885).
- Retry loops of the direct provider client and the model proxy, which are weaker variants of the request engine.
- Command registration, prompts, templates, renderers, registries, price tables and text checks, which would only add easy members.
