# tiny-url: a verified model

The server shortens URLs. Its handlers read a snapshot of a mapping, decide on it, and write back
through a store that has three backends; around the store sit bounded structures that are
updated in place: click lists, an audit ring, rate windows, a DNS cache, subscriptions, delivery
queues. This project models those parts and proves what holds in the gaps: between a read and the
write that follows it, between one backend and another, and between the bounded structure and the
full history it stands for.

Read it in this order.

* `store_spec.dfy` says what each store operation does, on values. `memory_store.dfy` is the
  in-memory store on the heap (mappings behind pointers, slices and optional times in shared boxes),
  proved equal to it operation by operation; `ring.dfy` is its bounded list slid down in place.
  `update_sql.dfy` holds the two SQL compilers of `Update`.
* `history.dfy`, `lifetime.dfy`, `click_cap.dfy`, `patch.dfy`, `incarnation.dfy` and `auth.dfy` are state
  machines over that store. An action that a client, a worker or a cleanup may take is one step; a
  theorem speaks of every list of steps. `patch_meaning.dfy` and `create_meaning.dfy` say what those two
  requests store, field by field, and when each refusal is given. `redirect.dfy`, `create.dfy`, `patch_handler.dfy` and
  `unfurl.dfy` are the handlers on the real store; where a handler goes back to the store, its
  parameter `meanwhile` (or `afterwards`) is what other requests did to it since.
* `ratelimit.dfy`, `dnscache.dfy`, `clickstream.dfy`, `workqueue.dfy` and `webhook.dfy` are the
  concurrent components: an object with its methods, then its atomic steps interleaving.
* `series.dfy`, `series_backends.dfy`, `picker.dfy`, `shortcode.dfy`, `validation.dfy`, `denylist.dfy`, `sse.dfy` and
  `csv.dfy` are the arithmetic, codec and parsing cores, `passwords.dfy` the passphrase check. `models.dfy`, `strings.dfy`, `sets.dfy` and
  `arith.dfy` hold what they share.

`dafny verify dfyconfig.toml` checks all of it.

Assumptions that stand for the outside world: a clock reading, a random draw, a DNS answer, an HTTP
outcome, a token hash and the key derivation for passphrases are parameters; token hashes are distinct; generated secrets,
hashes and salts are not empty; JSON text of tags and routing pools is any encoder with a decoder that
undoes it. Times and durations are nanoseconds in unbounded integers, except where the source's
64-bit arithmetic could matter (`Series.Fits`, `Series.RangeFits`).

## Where the code differs from the obvious claim

* Setting a webhook URL without a secret keeps the old secret in memory and nulls it in SQL. The three
  backends agree exactly when the URL comes with a secret or there is no stored secret
  (`UpdateSql.BackendsAgree`); PATCH always passes both (`Patch.PatchFieldsGood`).
* A PATCH working from a stale snapshot can write an old webhook secret back over a rotated one
  (`Patch.StalePatchUndoesRotation`). It does so exactly when the secret changed since it read and the
  request sets a webhook URL without asking for a new secret, or clears a webhook that had none
  (`Patch.UndoesRotationIff`). The field pairs survive that in any case.
* Cleanup drops expired mappings but not their click lists, so a reaped code that is created again
  inherits the old clicks (`History.ReusedCodeInheritsClicks`). The click list is the mapping's own
  exactly when nothing was left over or a thousand clicks have pushed it out (`History.ClickLog`).
* The repository's README calls the limiter a token bucket (README.md:339); the code is a fixed
  window. An interval one window long admits at most 2*rate - 1 requests, not 2*rate: the request that
  opens a window is a whole window older than the next one. The bound is reached.
* `Retry-After` can be zero or negative when the second clock reading is a second or more past the
  reset; waiting it out still ends after the window (`RateLimit.RetryAfterSuffices`).
* A second `Close` of a delivery queue returns while deliveries are still running
  (`WorkQueue.LosingCloseDoesNotWait`); what it returns on is drained exactly if the queue is empty and
  no worker holds a job (`WorkQueue.DrainedAtReturn`). The conservation law holds for the call that wins.
* An `Enqueue` that passed the `stopped` test and sends after the queue was closed aborts
  (`WorkQueue.EnqueueAborts`). From a given state that can still happen exactly if the queue is not
  stopped yet or a producer is between its test and its send (`WorkQueue.AbortPossibleIff`), so
  producers that finish before `Close` is called rule it out (`WorkQueue.QuiescedNeverAborts`).
* The janitor lets go of a bucket between its check and its delete. A drop is invisible exactly if the
  window has elapsed when the next request comes (`RateLimit.DropInvisibleIff`); a request that slips
  in between makes it show (`RateLimit.LateDropShows`).
* For clocks before 1970 that are not on a bucket boundary, the series ends one bucket too late
  (`Series.NowInLastBucket`).
* A host with a trailing dot is not covered by an entry without one
  (`DenyLists.TrailingDotNeedsDottedEntry`).
* An actor can authorize and then be logged as anonymous (`Auth.DeletedKeyIsAnon`). That happens exactly
  if it came in with an API key, not the owner token, and that key was revoked in between
  (`Auth.NameSurvives`); on one store state it cannot (`Auth.AuthorizedIsNamed`).
* A PATCH can answer 500 although its update was made, and log nothing. That happens exactly if the steps
  between the update and the re-read leave the code gone or past its deadline (`PatchHandler.LostIff`);
  where nobody creates the code or moves its deadline meanwhile, exactly if it is deleted, or reaped or
  read after the deadline the update left (`PatchHandler.LostWhereLeft`). A mapping without any deadline
  can lose the answer to a deletion (`PatchHandler.DeletionLosesAnswer`).
* `Update` checks nothing about the mapping that was read, so a PATCH admitted on one owner's mapping can
  land on another's that took the code since (`Incarnation.StalePatchHitsNewOwner`). It lands on the owner
  whose mapping it read if and only if the code was stored all the time in between
  (`Incarnation.CommitHitsOwnerIff`).
* The backends count clicks alike on the same click events, but they keep different ones: memory the last
  1000 and what an earlier mapping left, SQL those of the stored mapping (services/storage_sqlite.go:47-55)
  down to an age limit (services/storage_sqlite.go:648-655). Their series agree exactly if in every
  bucket the leftovers that memory lists and the clicks that SQL pruned make up for the ones that memory
  dropped (`SeriesBackends.BackendsSeriesIff`); in a window that nothing was pruned from, exactly if it
  holds no listed leftover and no dropped click (`SeriesBackends.SeriesInsideRetention`).
  `LongHistoryDiffers`, `ReusedSeriesDiffers` and `PrunedSeriesDiffers` are the three inputs.

## Model

| member | source | states |
|---|---|---|
| StoreSpec.StepKeepsIdentity | services/storage.go:271-348 | no store operation rewrites a kept mapping's ID or creation time; only a click moves the counter, only a rotation the owner token |
| StoreSpec.RunKeepsIdentity | services/storage.go:285-348 | over every run in which a mapping stays stored, its identity and creation time stand still and its counter grows by exactly the clicks recorded on it |
| StoreSpec.KeyAndAuditEffects | services/storage.go:370-499 | a lookup stamps one key, a relabelling changes one label, an audit event gets the next ID and a time if it has none; nothing else moves |
| StoreSpec.PageDefaults | services/storage.go:501-522 | a page has 50 events without a positive limit, and a negative offset is the start |
| MemoryStore.MemoryStore.Get | services/storage.go:216-231 | a snapshot struct sharing the mapping's boxes, or not-found, or expired |
| MemoryStore.MemoryStore.Set | services/storage.go:189-197 | inserts only under a free code, conflict otherwise, and touches no other mapping |
| MemoryStore.MemoryStore.Update | services/storage.go:285-348 | the heap update equals the field-by-field specification on that one row, and writes no shared box |
| MemoryStore.MappingRef.UpdateLinks | services/storage.go:317-330 | clearing the webhook wins over setting it, and a missing secret leaves the stored one |
| MemoryStore.MemoryStore.Delete | services/storage.go:236-245 | drops the mapping and its click list, nothing else |
| MemoryStore.MemoryStore.RotateToken | services/storage.go:271-281 | replaces the owner token of one mapping by a new box |
| MemoryStore.MemoryStore.RecordClick | services/storage.go:569-589 | counter, last-accessed time and bounded list move together, or nothing does |
| MemoryStore.MemoryStore.RecentClicks | services/storage.go:248-266 | the newest `limit` (50 by default) clicks, newest first |
| MemoryStore.MemoryStore.CreateAPIKey | services/storage.go:353-365 | the key gets the next ID, which no stored key has |
| MemoryStore.MemoryStore.LookupAPIKey | services/storage.go:370-383 | finds a key with this hash and stamps it, or there is none and nothing changes |
| MemoryStore.BytesEqualConstTime | services/storage.go:387-396 | the OR of the XORs is zero exactly for equal byte strings |
| MemoryStore.MemoryStore.DeleteAPIKey | services/storage.go:408-422 | removes the key and unlinks every mapping that carried its ID, no other |
| MemoryStore.MemoryStore.UpdateAPIKeyLabel | services/storage.go:426-436 | relabels the one key |
| MemoryStore.MemoryStore.LogAudit | services/storage.go:480-499 | appends with the next ID and a time, sliding out the oldest at the cap |
| MemoryStore.MemoryStore.RecentAuditEvents | services/storage.go:501-522 | the page of the log at an offset, newest first |
| MemoryStore.MemoryStore.CleanupExpired | services/storage.go:608-617 | removes exactly the expired mappings and no click list |
| MemoryStore.Perform | services/storage.go:189-617 | every operation on the heap equals its step on values |
| MemoryStore.SnapshotStable | services/storage.go:199-231 | a snapshot reads the same, through every slice and pointer, after any later operations |
| Ring.Slice.SlideDown | services/storage.go:580-585 | `copy(list, list[1:])` in place moves every element down by one |
| Ring.Slice.AppendBounded | services/storage.go:579-587 | the in-place slide and append equal the bounded append, and the length never passes the cap |
| Ring.Slice.Newest | services/storage.go:254-266 | the clicks handed out are a fresh copy, newest first |
| UpdateSql.EncodeDecode | services/storage_sqlite.go:167-350 | encoding a mapping into columns, with empty as NULL, and decoding gives it back |
| UpdateSql.BuildSqlite | services/storage_sqlite.go:488-583 | fragments and arguments stay in step and are the update's assignments in order |
| UpdateSql.BuildPostgres | services/storage_postgres.go:411-514 | the k-th fragment names `$k` and the k-th argument, overwritten in place, is its value |
| UpdateSql.NoColumnTwice | services/storage_sqlite.go:488-583 | no update sets a column twice |
| UpdateSql.BindInStep | services/storage_postgres.go:411-514 | both placeholder schemes bind back to the same assignments |
| UpdateSql.ExecInStep | services/storage_postgres.go:411-514 | the statement, with the code as last argument, runs without error and assigns exactly those columns of exactly that row |
| UpdateSql.SqlStore.UpdateSqlite | services/storage_sqlite.go:488-583 | build, append the code, execute: the specified table and the not-found result, also for an empty update |
| UpdateSql.SqlStore.UpdatePostgres | services/storage_postgres.go:411-514 | the same table and the same result as SQLite |
| UpdateSql.AssignmentsDecoded | services/storage_sqlite.go:488-583 | what the whole SET list leaves of the decoded row |
| UpdateSql.RowsAgree | services/storage.go:285-348 | on one row SQL and memory agree if and only if the webhook is paired or no secret is stored |
| UpdateSql.BackendsAgree | services/storage.go:285-348 | the decoded table after either SQL update is the in-memory map, under exactly that condition |
| UpdateSql.UnpairedUpdateDiffers | services/storage_sqlite.go:528-530 | a URL without a secret empties the column in SQL and keeps the secret in memory |
| History.BoundedAppendIsLastN | services/storage.go:579-587 | appending to the last n is the last n of the longer log |
| History.ClickLog | services/storage.go:569-589 | on every run the list is the newest 1000 of leftover plus own clicks, and the mapping's own exactly if nothing was left over or 1000 own clicks exist |
| History.FreshClickLog | services/storage.go:569-589 | where reaped codes are not reused, a mapping created at count 0 holds the last min(ClickCount, 1000) of its clicks, was last accessed at the newest of them, and RecentClicks returns them newest first |
| History.NoReuseNoLeftover | services/storage.go:608-617 | without reuse of reaped codes nothing is ever left over |
| History.ReusedCodeInheritsClicks | services/storage.go:608-617 | with reuse, a new mapping with no clicks shows an old one |
| History.AuditRing | services/storage.go:480-499 | the audit ring is the last min(n, 1000) of n events, with consecutive IDs ending at n |
| History.PagesAreTheReversal | services/storage.go:501-522 | consecutive pages concatenate to the exact reversal of the ring |
| Redirect.RedirectHandler.Check | handlers/redirect.go:91-139 | cap, password gate, choice of target, deny list, host check: in that order, on the snapshot |
| Redirect.RedirectHandler.RecordAndPublish | handlers/redirect.go:172-188 | subscribers and webhooks hear of a click exactly when the store recorded it |
| Redirect.RedirectHandler.ServeHTTP | handlers/redirect.go:64-192 | whatever other requests do in between, a served request redirects to the decided target and is one click, fanned out once, exactly if the mapping is still stored by then; a refused one changes nothing |
| Redirect.RedirectHandler.PasswordOK | handlers/redirect.go:207-235 | the status of the passphrase gate for each kind of request |
| Redirect.RedirectedIff | handlers/redirect.go:64-192 | 302 if and only if the mapping is stored, live, under its cap, unlocked by the posted passphrase, and its target is not denied or blocked; the location is the mapping's URL, or that of the pool entry in whose slice the draw lies |
| Redirect.RefusedWith | handlers/redirect.go:71-139 | which status each refused request gets, the first reason deciding, and that it changes nothing |
| Redirect.RedirectEffects | handlers/redirect.go:141-190 | one click, one log entry naming the pool target, one published event, one webhook job if the snapshot has a webhook; none of it if the mapping is gone |
| Passwords.OpensToSameKey | handlers/password.go:41-73 | what was stored for a passphrase opens to it, and to another exactly if it derives the same key |
| ClickCap.CapBound | handlers/redirect.go:91-95 | over every interleaving with at most N redirects in flight the counter stays at most cap + N - 1; one at a time never exceeds the cap |
| ClickCap.BoundReached | handlers/redirect.go:71-172 | for every cap and every N some run ends at exactly cap + N - 1 |
| Strings.TrimSplits | services/validation.go:69-72 | trimming removes white space only, at the two ends only |
| Validation.NormalizeTags | services/validation.go:62-88 | the loop equals the specified first occurrences, or the first error |
| Validation.NormalizedIsGood | services/validation.go:62-88 | accepted lists are distinct, trimmed, non-blank and bounded, hold exactly the trimmed input tags, and are fixed points; acceptance is characterised |
| Validation.ValidateDestinations | services/validation.go:97-121 | the loop reports the first fault, weight before URL, or returns the pool |
| Validation.ValidatedPoolIsGood | services/validation.go:97-121 | a pool is accepted, unchanged, exactly if it has at most 10 entries with weights 1-100 and good URLs |
| Validation.TagsRefusedWith | services/validation.go:72-84 | a tag over 32 bytes is reported before more than 16 tags |
| Validation.FirstFaultIs | services/validation.go:105-113 | the first wrong entry decides the error, its weight before its URL |
| Strings.ByteLenOfChar | services/validation.go:73-75 | lengths are counted in bytes of UTF-8 |
| Create.BuildRow | handlers/shorten.go:107-212 | the validations in order and the row they admit |
| Create.NewRowGood | handlers/shorten.go:107-212 | every created row has its pairs together and its pool and tags in limits |
| Create.ShortenOne | handlers/shorten.go:107-258 | stores that row under its code, logs it and hands it to the unfurler; a code taken meanwhile is a conflict that leaves the row that took it; any other refusal changes nothing and answers the status of the first failing check |
| CreateMeaning.AcceptedIff | handlers/shorten.go:125-183 | a create is accepted if and only if every field is good and the random source gave what was needed |
| CreateMeaning.RefusedWith | handlers/shorten.go:125-183 | otherwise 500 exactly if a failing random source was the first thing wrong, and 400 if not |
| CreateMeaning.ShortenRefusedWith | handlers/shorten.go:112-195 | the same with the custom code in front and the generated code and owner token behind |
| CreateMeaning.StoredFields | handlers/shorten.go:197-211 | URL, cap, key ID, owner hash and a count of 0, each in its place |
| CreateMeaning.StoredDeadline | handlers/shorten.go:129-200 | the asked-for deadline clamped to the longest, or none |
| CreateMeaning.StoredLinks | handlers/shorten.go:136-212 | tags, pool, webhook and its secret, from the request |
| CreateMeaning.StoredPassword | handlers/shorten.go:145-206 | hash and salt of the passphrase, each in its place |
| CreateMeaning.OpensToItsPassphrase | handlers/redirect.go:207-235 | a created link is open without a passphrase, and otherwise exactly to what derives its key |
| CreateMeaning.CreatedLinkRedirects | handlers/redirect.go:101-105 | posting its passphrase to a created link answers 302 to its URL, one that derives another key 401 |
| CreateMeaning.CreatedStore | handlers/shorten.go:214-248 | one row, and one audit entry naming the creating key or nobody |
| Patch.BuildFields | handlers/patch.go:110-252 | request and snapshot become this update, this new secret, or the first error |
| Patch.PatchFieldsGood | handlers/patch.go:208-256 | PATCH always passes webhook URL and secret together, pairs and limits intact |
| Patch.RevealedSecretIsStored | handlers/patch.go:200-252 | a secret in the response is the one stored by the update; without one the stored secret stays, goes with its webhook, or is the snapshot's |
| Patch.SecretSurvivesIff | handlers/patch.go:200-256 | without a new secret, the stored one survives if and only if the webhook is left alone, cleared when it has none, or that secret was read |
| Patch.HandlersAgreeOnBackends | handlers/patch.go:254-256 | so PATCH and the unfurler leave the same rows on all three backends |
| Patch.EveryRowGood | handlers/patch.go:69-256 | in every state reached by create, PATCH, rotate and unfurl steps on stale snapshots, webhook URL and secret are empty together, password hash and salt are, and pools and tags are in limits |
| Patch.StalePatchUndoesRotation | handlers/patch.go:208-225 | a stale PATCH restores the secret that a rotation replaced |
| Patch.UndoesRotationIff | handlers/patch.go:200-256 | in every run a pending PATCH undoes a change of the secret exactly if there was one since it read, and it sets a URL over the secret it read without rotating, or clears a webhook that had none |
| PatchMeaning.AcceptedIff | handlers/patch.go:85-252 | a PATCH is accepted if and only if it names a field, every named field is good (a cap exceeding the clicks that were read), and the random source gave what was needed |
| PatchMeaning.RefusedWith | handlers/patch.go:85-252 | otherwise 500 exactly if a failing random source was the first thing wrong, and 400 if not |
| PatchMeaning.PatchedTarget | handlers/patch.go:110-181 | URL, deadline and cap: replaced, cleared, or as they were when omitted |
| PatchMeaning.PatchedTags | handlers/patch.go:151-163 | the caller's tags, trimmed, without blanks and repetitions |
| PatchMeaning.PatchedPassword | handlers/patch.go:183-195 | a pair that the new passphrase opens, none, or the old pair |
| PatchMeaning.PatchedLinks | handlers/patch.go:200-252 | webhook, secret and pool, each case |
| PatchMeaning.PatchedNothingElse | handlers/patch.go:254-256 | no request reaches any other field |
| PatchMeaning.EveryUrlValidated | handlers/patch.go:114-236 | in every state reached by interleaved creates, PATCHes and unfurls, every stored target, webhook and pool URL passed the validator in force |
| PatchHandler.UpdateRow | handlers/patch.go:69-262 | an authorized and faultless request makes the update it asks for, decided on its snapshot, or answers 404 if the code is gone by then; any other changes nothing and answers the status of the first failing check |
| PatchHandler.ServeHTTP | handlers/patch.go:69-316 | whatever other requests do before the update and before the re-read: the re-read row and the new secret are answered and one event is logged under the name the bearer then has, or the re-read fails, with the update made, and nothing is logged |
| PatchHandler.RefusedWith | handlers/patch.go:85-107 | which status each refused request gets, the first reason deciding |
| PatchHandler.PatchedMeans | handlers/patch.go:262-316 | the answer is the mapping as stored, with one audit entry, as the owner token's exactly if it was presented |
| PatchHandler.AloneMeans | handlers/patch.go:69-316 | with nobody in between an accepted request changes its own mapping by its own update only, a refused one none |
| PatchHandler.LostIff | handlers/patch.go:254-270 | after any steps in between, the re-read fails if and only if they leave the code gone or past its deadline |
| PatchHandler.LostWhereLeft | handlers/patch.go:254-270 | where nobody creates the code or moves its deadline, if and only if it is deleted, or reaped or read after the deadline that the update left |
| PatchHandler.DeletionLosesAnswer | handlers/patch.go:254-270 | a request that clears the deadline loses its answer to a deletion |
| Lifetime.UnreadableIff | services/storage.go:216-245 | after any operations a code is unreadable if and only if its fate under them is gone or past its deadline |
| Lifetime.UnreadableWhereLeft | services/storage.go:608-617 | where nobody creates the code or moves its deadline, exactly by a deletion, a cleanup after the deadline, or a read after it |
| Incarnation.SameMappingIff | services/storage.go:189-197 | a code stored at both ends of a run is still the same mapping, not one created since, if and only if it was never missing in between |
| Incarnation.OwnerTells | handlers/patch.go:254-256 | with fresh owner tokens and no rotation, the stored owner is unchanged if and only if the code was never missing |
| Incarnation.CommitHitsOwnerIff | handlers/patch.go:75-256 | a PATCH committed any number of steps after its read updates a mapping of the owner it read if and only if the code was stored all the time since |
| Incarnation.StalePatchHitsNewOwner | handlers/patch.go:75-256 | read, delete, create by another owner, commit: the new owner's mapping carries the old request |
| Auth.DetectAPIKey | handlers/shorten.go:92-101 | the ID of a key with the bearer's hash, or 0 when there is none |
| Auth.AuthorizeAccess | handlers/auth.go:64-89 | admits exactly the owner token and the linked live key |
| Auth.ResolveActor | handlers/auth.go:106-119 | names the owner token, else the key, else nobody |
| Auth.AuthorizedIsNamed | handlers/auth.go:64-119 | on one store state whoever is admitted is named, by the credential that admitted |
| Auth.DeletedKeyIsAnon | handlers/auth.go:106-119 | deleting the key between the two calls loses the name |
| Auth.NameSurvives | handlers/auth.go:64-119 | with any steps between authorization and audit, the owner token keeps its name always, a key keeps it if and only if it was not revoked in between, and nobody is named otherwise |
| Auth.KeyIdFates | handlers/shorten.go:92-212 | in every interleaving a mapping's key ID is 0, a live key, or one that no later lookup returns |
| Auth.LiveUnlessRevoked | services/storage.go:353-424 | over every run an issued key keeps its hash and is live exactly if it was and was not revoked; a dead key never comes back |
| Auth.NewKeyIsNew | services/storage.go:353-365 | a new ID exceeds every ID ever issued |
| Auth.OnlyTheCreatingKey | handlers/auth.go:64-89 | whatever snapshot is held, the key path admits exactly the key that created the mapping, while it lives |
| Auth.AdmittedExactly | handlers/auth.go:64-89 | over every run, a bearer is let in on a held snapshot if and only if it is the token last given to the code when the snapshot was read, or the live key that created the mapping |
| Auth.NamedExactly | handlers/auth.go:106-119 | and is logged as the token's holder, a key's holder or nobody exactly so |
| Auth.RotationSwitches | services/storage.go:271-281 | after a rotation the new token is admitted and the old one no more than a stranger's |
| Auth.CreatorIsAdmitted | handlers/shorten.go:92-212 | a create with a live key's token links that key, which then opens the mapping |
| Auth.RevocationUnlinks | services/storage.go:408-422 | revoking a key unlinks exactly the mappings that carried it |
| Auth.AuditTellsActors | handlers/auth.go:106-119 | the logged kind and ID of each actor, and that no two actors look alike in the log |
| Unfurl.Unfurler.Fetch | services/unfurl.go:149-184 | one count and one stamp per job, also after a failed fetch; a deleted row stays deleted |
| Unfurl.StampCommutes | services/unfurl.go:170-184 | an unfurl commutes with clicks, rotations and key operations |
| Unfurl.StampedRow | services/unfurl.go:149-184 | title, image and description in their places, the stamp, and nothing else |
| RateLimit.Limiter.Allow | middleware/ratelimit.go:44-69 | counts the request in its window, opening a new one after the old, and rejects beyond the rate with Retry-After |
| RateLimit.Limiter.SweepOne | middleware/ratelimit.go:79-87 | drops the one bucket exactly if its window has elapsed |
| RateLimit.Limiter.JanitorPass | middleware/ratelimit.go:71-91 | an uninterrupted pass leaves exactly the running windows |
| RateLimit.SweepDrops | middleware/ratelimit.go:79-87 | a check drops a bucket exactly if its window has elapsed, and touches no other |
| RateLimit.EvictionInvisible | middleware/ratelimit.go:71-91 | with janitor checks anywhere, every request finds the same count and reset time as if nothing was ever dropped |
| RateLimit.DropInvisibleIff | middleware/ratelimit.go:81-86 | dropping a bucket changes the next request's window if and only if the old one is still running |
| RateLimit.LateDropShows | middleware/ratelimit.go:81-86 | a request between check and delete makes the drop show |
| RateLimit.AdmissionBounds | middleware/ratelimit.go:44-69 | windows of one IP are disjoint with at most `rate` admissions each, and an interval of one window's length holds at most 2*rate - 1 |
| RateLimit.BoundReached | middleware/ratelimit.go:44-69 | some run reaches 2*rate - 1 |
| RateLimit.RetryAfterSuffices | middleware/ratelimit.go:58-62 | waiting ends strictly after the reset and not a second later than needed; the header is positive exactly if the clock was less than a second past it (section 10.2.3 of RFC 9110) |
| RateLimit.WaitingIsEnough | middleware/ratelimit.go:44-69 | the next request after that wait opens a new window, evicted or not |
| DnsCache.DNSCache.EvictIfFull | services/dnscache.go:79-95 | below capacity nothing; else the expired entries go, or all if still full |
| DnsCache.DNSCache.ValidateHost | services/dnscache.go:50-73 | a live entry answers; otherwise the resolver does and the answer is stored within capacity |
| DnsCache.FitsAfterEviction | services/dnscache.go:79-95 | after an eviction there is room for one more |
| DnsCache.EveryAnswerFresh | services/dnscache.go:50-95 | in every interleaving each answer stems from a lookup of the same host begun less than a TTL before the call's clock, and the map stays within capacity |
| DnsCache.AnswersAsDirect | services/dnscache.go:50-95 | if the resolver was steady for that long, the answer is what a direct validation gives, whatever was evicted |
| DnsCache.StoredIsFound | services/dnscache.go:57-72 | a stored answer is found for its host until a TTL after the storing call's clock, and for no other host |
| DnsCache.EvictionExactly | services/dnscache.go:79-95 | everything stays while there is room, else what has not expired if that makes room, else nothing |
| DnsCache.CallSteps | services/dnscache.go:50-73 | a live entry answers at once; otherwise the resolver does and its answer is stored |
| ClickStream.Subscription.Deliver | services/clickstream.go:64-74 | sends only to an open channel with room, else drops |
| ClickStream.Subscription.CloseOnce | services/clickstream.go:48-56 | closes the channel once and tells the first caller |
| ClickStream.Stream.Subscribe | services/clickstream.go:82-95 | registers a fresh open subscription under its code |
| ClickStream.Stream.Unsubscribe | services/clickstream.go:99-107 | removes it, and its code with the last one |
| ClickStream.Stream.Publish | services/clickstream.go:114-128 | offers the event to every subscriber of the code once |
| ClickStream.StreamSafe | services/clickstream.go:48-127 | in every interleaving no send hits a closed channel, none is closed twice, buffers hold at most 8, what a subscriber got is what was sent in order, every open subscription is registered, no empty set stays |
| ClickStream.EachOfferedOnce | services/clickstream.go:114-128 | every attempt carries a publish's event to that publish's code, at most once each; a finished publish has tried everyone it saw |
| ClickStream.LossesExplained | services/clickstream.go:64-74 | an event is lost exactly to a full buffer or a closed subscription |
| ClickStream.SnapshotSees | services/clickstream.go:114-122 | a publish sees exactly the subscriptions of its code that are open, or between the two halves of Close, at that step |
| ClickStream.EveryoneOffered | services/clickstream.go:114-128 | in every run, once a publish is done each subscription of its code that was open at its snapshot has had exactly one attempt with its event |
| ClickStream.AttemptExplained | services/clickstream.go:64-74 | each attempt delivered unless the subscription was closed or its buffer full at that moment |
| ClickStream.SubscribeRegisters | services/clickstream.go:82-95 | a new subscription is open, empty and registered |
| ClickStream.CloseCloses | services/clickstream.go:48-62 | the halves of Close close the channel and deregister |
| ClickStream.ReceiveTakes | services/clickstream.go:46 | a receive takes the oldest buffered event |
| ClickStream.SendProceeds | services/clickstream.go:124-127 | a pending send can always be made |
| WorkQueue.NothingLost | services/webhook.go:127-162 | accepted jobs are exactly those waiting, in a worker's hands or delivered once; the counters agree; first in, first out; the queue stays within capacity; every call has one outcome, and none aborts before the queue is closed |
| WorkQueue.DrainedWhenClosed | services/webhook.go:143-149 | once the winning Close returns every accepted job was delivered exactly once: accepted = sent + failed |
| WorkQueue.LosingCloseDoesNotWait | services/webhook.go:143-149 | a Close that loses the race returns with an accepted job undelivered |
| WorkQueue.DrainedAtReturn | services/webhook.go:143-149 | at any moment accepted = sent + failed if and only if the queue is empty and no worker holds a job |
| WorkQueue.EnqueueAborts | services/webhook.go:127-138 | a close between test and send aborts the producer |
| WorkQueue.QuiescedNeverAborts | services/unfurl.go:106-127 | once stopped with no producer in between, no continuation aborts |
| WorkQueue.AbortPossibleIff | services/webhook.go:127-149 | from any state an abort can follow if and only if the queue is not stopped or a producer is in between |
| WorkQueue.SendOutcome | services/webhook.go:131-137 | a send aborts exactly on the closed queue, is dropped exactly by a full one, and is accepted at the end otherwise |
| WorkQueue.TestOutcome | services/webhook.go:128-130 | a producer is refused exactly if Close was called before its test |
| WorkQueue.WorkerOutcome | services/webhook.go:157-162 | a worker takes the oldest job, and a settled job is counted by its outcome |
| WorkQueue.CloseCanReturn | services/unfurl.go:121-140 | no deadlock: from any state with the queue closed the workers alone can finish and Close returns |
| Webhook.WebhookDispatcher.Enqueue | services/webhook.go:127-138 | accepts exactly if not stopped and not full, and counts a drop |
| Webhook.Attempt | services/webhook.go:245-283 | an attempt asks for a retry exactly after no response or a 5xx, and succeeds exactly on a 2xx |
| Webhook.WebhookDispatcher.Deliver | services/webhook.go:174-236 | no attempt for a refused target; else attempts up to the first that is not retryable, at most three, sent exactly if that one is a 2xx |
| Webhook.DeliveryDetermined | services/webhook.go:207-283 | those rules leave one possible delivery |
| Webhook.DeliveryByStatus | services/webhook.go:207-283 | by status code: another attempt exactly after no response or a 5xx with fewer than three made, sent exactly on 200-299, waits of 0, 200 and 1000 ms |
| Webhook.WebhookDispatcher.Drain | services/webhook.go:157-162 | a lone worker delivers the closed queue in order and counts each event once |
| Webhook.SentCountsSuccesses | services/webhook.go:157-236 | in every run `sent` counts exactly the settled events whose last attempt was a 2xx, `failed` the others, each with its own delivery of at most three attempts |
| Series.SumIsWindow | services/storage.go:530-551 | the buckets add up to the events of the window |
| Series.Coarsens | services/storage.go:530-551 | adding each k adjacent buckets is bucketing at width k*w |
| Series.IndexOfEvent | services/storage.go:544-547 | the division gives the bucket the event lies in, so the guard drops nothing |
| Series.ClicksByBucket | services/storage.go:530-551 | bucket i counts exactly the events of [start + i*w, start + (i+1)*w), with the empty and not-found cases |
| Series.SqlClicksByBucket | services/storage_sqlite.go:591-623 | on the same click events the SQL backends answer as the in-memory loop does, whatever order the groups come in |
| Series.GroupIsBucket | services/storage_postgres.go:519-551 | the size of a group is the count of its bucket |
| SeriesBackends.SqlKeepsOwnClicks | services/storage_sqlite.go:640-655 | on every run the SQL click rows of a stored code, with those pruned, are the clicks recorded since it was created, and only clicks older than a cleanup's cutoff are pruned |
| SeriesBackends.BackendsSeriesIff | services/storage.go:530-551 | on every run the in-memory and the SQL series of a code agree if and only if bucket by bucket listed leftovers and pruned clicks make up for dropped ones |
| SeriesBackends.SeriesInsideRetention | services/storage_sqlite.go:591-623 | in a window that no cleanup pruned they agree if and only if it holds no listed leftover and no dropped own click |
| SeriesBackends.LongHistoryDiffers | services/storage.go:579-587 | with more than 1000 clicks in the window memory adds up to 1000 and SQL to all |
| SeriesBackends.ReusedSeriesDiffers | services/storage.go:608-617 | a reaped and reused code shows the old click in memory and none in SQL |
| SeriesBackends.PrunedSeriesDiffers | services/storage_sqlite.go:648-655 | a click past the age limit shows in memory and not in SQL |
| Series.EndAligned | handlers/series.go:104-110 | the end is a bucket boundary |
| Series.SameBucketSameEnd | handlers/series.go:104-110 | two clocks past 1970 have the same end if and only if they lie in one bucket |
| Series.NowInLastBucket | handlers/series.go:104-110 | a click at now is in the last bucket if and only if the clock is past 1970 or on a boundary |
| Series.ClickShowsInLastBucket | handlers/series.go:104-112 | a click recorded now raises the last count by one and no other |
| Series.ServeSeries | handlers/series.go:57-120 | the clamped number of buckets ending at that boundary, for an authorized caller; otherwise the status of the first failing check |
| Series.QueryMeans | handlers/series.go:40-102 | the width, limit and default of each bucket name, and which queries are bad |
| Series.RefusedWith | handlers/series.go:57-102 | which status each refused request gets, the first reason deciding |
| Series.RangeFits | handlers/series.go:40-47 | the range caps keep the window inside 64 bits |
| Picker.PickDestination | services/destination_picker.go:17-45 | returns the entry the draw lands on; the last-entry fallback is unreachable |
| Picker.LandingSlice | services/destination_picker.go:34-40 | a draw lands on entry i exactly in i's slice of [0, total) |
| Picker.WeightedFairly | services/destination_picker.go:17-45 | exactly Weight_i draws select entry i, and the draws partition [0, total) |
| ShortCode.GenerateRandomBase62 | services/shortcode.go:41-61 | the first `length` accepted bytes of the stream, across refills, and no read more than needed |
| ShortCode.GenerateShortCode | services/shortcode.go:21-35 | codes drawn in turn from the stream until one is free; none after five that were taken or a failed read |
| ShortCode.FourBytesPerChar | services/shortcode.go:9-17 | every character has exactly four accepted bytes |
| ShortCode.EveryCodeEquallyLikely | services/shortcode.go:41-61 | every code of length L has exactly 4^L accepted byte tuples |
| Sse.ServeHTTP | handlers/stream.go:74-113 | the handler writes the opening comment and one frame per heartbeat and marshalled click |
| Sse.FramesAreEvents | handlers/stream.go:83-113 | the click frames are exactly the events that can be marshalled, in order |
| Sse.LiveClient.HandleSSEEvent | static/app.js:1654-1673 | reports the data of a click event and ignores comments and everything else |
| Sse.LiveClient.Receive | static/app.js:1626-1639 | a chunk completes exactly the events whose blank line it brings |
| Sse.EventNameDecides | static/app.js:1654-1667 | an event counts as a click by its name alone, and only with data |
| Sse.LinesCombine | static/app.js:1659-1664 | data lines are joined, the last event name counts, comments do not |
| Sse.ChunksDoNotMatter | static/app.js:1626-1639 | for any text cut anywhere, parsing the parts is parsing the whole |
| Sse.ReadWire | static/app.js:1626-1673 | however the wire is cut, the clicks arrive in order with data intact and nothing is left over |
| Sse.BrokenStream | static/app.js:1626-1639 | a connection that breaks anywhere has reported a prefix |
| Sse.StandardReaderAgrees | static/app.js:1654-1673 | a reader after section 9.2 of the WHATWG HTML Standard dispatches the same clicks |
| Csv.ExportCSV | static/app.js:2202-2222 | the loop prints header and rows as the table they make |
| Csv.RoundTrip | static/app.js:2202-2233 | a reader for section 2 of RFC 4180 gets every table back, and unchanged exactly if it has records and none is empty |
| Csv.QuotedOnlyWhenNeeded | static/app.js:2226-2233 | a field is quoted exactly if it holds a quote, a comma or a line break |
| Csv.ExportRoundTrips | static/app.js:2202-2233 | so every export is read back |
| DenyLists.NewDenyList | services/denylist.go:33-49 | the set of normalised non-blank entries, nil if there are none |
| DenyLists.FeedFormats | services/denylist.go:129-139 | a plain host, a leading dot and a wildcard normalise alike |
| DenyLists.Contains | services/denylist.go:98-119 | the walk ends and finds exactly the entries that equal the host or precede it by a dot |
| DenyLists.ListedHostBlocked | services/denylist.go:33-119 | a listed host blocks itself and every host under it |
| DenyLists.CaseIgnored | services/denylist.go:98-139 | letter case matters neither in a host nor in an entry |
| DenyLists.CommentsIgnored | services/denylist.go:129-133 | comments and blank lines name no host |
| DenyLists.MergedIsDisjunction | services/denylist.go:78-92 | a merged list blocks what some input blocks |
| DenyLists.SubdomainsBlocked | services/denylist.go:98-119 | adding labels in front of a blocked host gives a blocked host |
| DenyLists.EmptySuffixNeverMatches | services/denylist.go:98-119 | a blank host matches nothing |
| DenyLists.TrailingDotNeedsDottedEntry | services/denylist.go:98-119 | nor does the empty suffix behind a trailing dot |

## Left out

- HTTP plumbing, routing, JSON decoding, templates, headers, logging, metrics, tracing, GeoIP, QR codes, badges and configuration: library wiring without state of its own.
- SQL text and drivers: statements are fragments with placeholders, run on a table of typed columns; schema, migrations, transactions and the SQL forms of operations other than `Update` and `ClicksByBucket` are not modelled.
- Cryptography: hashing, key derivation, signing and the timing of comparisons; token hashes are opaque and distinct, and the key derivation is any function.
- `ListURLsByAPIKey`, `Exists`, `GetAPIKey`, `ValidateCustomCode`, `TruncateReferer`, `parsePosInt`, `categorizeIP`: they would only add easy members.
- The HTML token loop behind page previews: the tokenizer it drives is not part of this model; a page is a preview or an error.
- Mutual exclusion itself: what the source does under one lock is one atomic step here; the redirect's lock-free read of a click count is a read of its own snapshot.
- RateLimit.Limiter.SweepOne: check and delete of one bucket are one step, while the janitor unlocks before it deletes; what a late delete does is `RateLimit.DropInvisibleIff`. A request that loaded a bucket which is then dropped before it locks it is not modelled.
- RateLimit.EvictionInvisible: requests are served in the order of their clock readings; the source reads the clock before it takes the bucket's lock, so two requests of one IP may be served in the other order.
- RateLimit.RetryAfterSuffices: the float conversion of the remaining time is taken as exact, which it is for waits under half a year.
- MemoryStore.AppendBounded: the lists inside the store are values; the slide in place is proved on an array in `Ring.Slice.AppendBounded`.
- MemoryStore.MemoryStore.LookupAPIKey: returns the key as a value, where the source returns the pointer it stores; reads through it after the lock is released are not modelled.
- PatchHandler.ServeHTTP: other requests come in before the update and before the re-read; that they may also come in around the authorization and before the audit event is `Auth.OnlyTheCreatingKey` and `Auth.NameSurvives`.
- PatchHandler.ServeHTTP: the audit event's metadata and request ID are left out, as are the audit writes of the handlers for deletion, rotation and keys.
- Redirect.RedirectHandler.ServeHTTP: other requests come in between Get and RecordClick, and any number of redirects interleave in `ClickCap.CapBound`; it requires positive weights, which every stored pool has by `Patch.EveryRowGood`.
- WorkQueue.NothingLost: an unfurl job counts as done together with its row update, which the source does right after counting.
- Webhook.WebhookDispatcher.Deliver: sleeping is a sum of back-off times and the payload is opaque.
- DenyLists.Contains: lower-casing is any character-wise map that makes no dots; UTF-8 decoding is not modelled.
- Sse.LiveClient.Receive: chunks are text; bytes of one character split across chunks are the decoder's business.
- ShortCode.EveryCodeEquallyLikely: counts byte tuples; probability itself is not modelled.
- The dashboard apart from the live stream and the CSV export.
