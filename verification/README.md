# Duar: verified models of the SDK, the admin logger and the log redactor

Duar issues short-lived authorization tokens and answers permission questions. Its Python and
JavaScript SDKs put caches, single-flight tables and small codecs between an application and the
Duar service. This project models those pieces in Dafny and proves what they guarantee over every
input and every run.

| files | what they model |
|---|---|
| `MintProtocol`, `MintProtocolRuns`, `LateFailure`, `ResolveCache`, `AuthzMiddleware`, `Identifiers` | auto-resolve in `AuthzMiddleware`: a bounded, insertion-ordered cache of minted tokens and a single-flight table shared by all requests |
| `TtlCache`, `TtlCacheClass`, `PermissionClient`, `PermissionClientClass`, `RequestAuth`, `RequestAuthStack` | the TTL cache, the cached permission client over it, and the per-request memo over that |
| `Base64Url` | the base64url printer of the PKCE helper and the parser of JWT segments |
| `ClientLogger` | the batching log shipper of the admin app |
| `Redaction` | recursive redaction of log events |
| `RealmScope`, `M2mToken`, `McpGate` | realm scope across aliased clients, the cached machine-to-machine token, agent-gated MCP tools |
| `Common`, `OrderedDict` | options and Python's insertion-ordered dictionaries |

Code that runs between two awaits is one step. Each protocol (`MintProtocol`, `PermissionClient`,
`RequestAuth`, `M2mToken`, `ClientLogger`) is a pure `Step` function over a state; the scheduler, the
clock, the answers of Duar, failures and disconnecting callers are events, and theorems are about all
sequences of events. The classes hold the fields the code updates in place; each of their methods is
the code of one step and is proved to do to the fields what `Step` does to the state. Mint logs, reply
logs and epochs are history: no branch of the code depends on them.

Token decoding and the UUID parser are arbitrary functions, the token hash is arbitrary with
collision-freedom as an explicit hypothesis where it is needed, and `str.lower` is any function that
keeps the suffix `_domain`. Time is real-valued and never runs backwards.

Three facts about Duar's own side are taken from its service: registered names and realm slugs match
`[a-z][a-z0-9-]*[a-z0-9]` (service/src/schemas/service_app.py:16-18, service/src/schemas/validators.py:55),
`whoami` answers with the realm slug or else the service name (service/src/api/dependencies.py:61-65), and
a machine-to-machine reply always has an integer lifetime (service/src/schemas/realm.py:35-37).

The model follows the code where its documentation, or what a caller would expect, says otherwise:

- `RequestAuth` is documented to make one HTTP call for repeated arguments. That holds for
  sequential calls (`SequentialMemo`); overlapping calls both go upstream (`OverlapFetchesTwice`). An
  answer is final in every continuation exactly when no call with its arguments is in flight when it is
  given (`DeduplicatesExactly`).
- A permission read that overlaps a successful write can store an answer from before the write
  (`OverlappingReadOutlivesWrite`); `HitPredatesWriteOnlyByOverlap` gives the exact condition.
- `mint_m2m_token` assigns the token before it reads `expires_in`, so a reply without one leaves the
  new token with another reply's refresh time (`TruncatedReplyMixesPairs`). Duar's `M2MTokenResponse`
  always carries a text and an integer, so such a reply does not come from Duar itself. With it, a served
  token is inside its own lifetime exactly when each truncated reply was followed by a complete one
  (`ServedInsideLifetime`). Sequential calls are enough unless a reply has a null token and a lifetime
  (`SequentialServedInside`, `NullTokenLendsItsLifetime`).
- Duar's `whoami` always names a scope, the service's own when it has no realm, and then clients and
  scope agree whatever happens (`ScopeFollowsDuar`), leaving a realm included. The SDK also accepts a reply
  without a scope, which Duar does not send; `CoherentUnlessStranded` says exactly when such a reply
  leaves clients under a foreign scope, and until when.
- The action grammar is matched with `$`, which in Python also matches before a final newline
  (`AcceptedButIllFormed`, `RegisteredActions`).
- A failed verification pops the cache by key, so a late failure can drop a newer mint
  (`LateFailureDropsNewerMint`); `PopDropsNewerMint` says exactly when.
- Only a failed verification pops. A token refused for its subject, scope or claims goes on being handed
  out for its key (`RefusedTokenIsServedAgain`); `ServedExactlyWhileKept` says until when.
- The keys of the permission cache do not name the service, and a realm discovery re-points a client in
  place, so a hit can answer for the scope before it (`OldScopeIsServed`); `HitIsForCurrentScope` says
  exactly when it does not.
- A server mounted again with another `Duar` object keeps the first one's gate while the second registers
  (`OneGate`); `SurvivingGateAgrees` says exactly when gate and registration then agree.

## Model

| member | source | states |
|---|---|---|
| Identifiers.CacheKeyInjective | sdk/src/duar_auth/authz_middleware.py:217-228 | the cache key, `sub|uuid`, determines subject and workspace, for every subject text, because the canonical UUID has 36 characters and no bar |
| Identifiers.CanonicalReads | sdk/src/duar_auth/authz_middleware.py:224 | the canonical text is lower-case digits in groups of 8, 4, 4, 4 and 12 that read as the UUID's number |
| ResolveCache.EvictedOnlyWhenStale | sdk/src/duar_auth/authz_middleware.py:262-265 | a key dropped by a store leaves 4096 other keys that were all minted after it |
| ResolveCache.StoreKeepsNewest | sdk/src/duar_auth/authz_middleware.py:262-265 | the key just minted is in the cache, last, with its own token and deadline |
| ResolveCache.StoreInSteps | sdk/src/duar_auth/authz_middleware.py:262-265 | assigning, moving to the end and trimming equals removing the key and appending it before the trim |
| MintProtocol.InvStep | sdk/src/duar_auth/authz_middleware.py:228-266 | every event keeps the single-flight table, the cache against the mint log, and each request's own key in order |
| MintProtocol.StartsOnlyWhenIdle | sdk/src/duar_auth/authz_middleware.py:228-236 | a mint starts only on a cache miss for a key with no task in the table, and the request waits for exactly that task |
| MintProtocolRuns.SingleFlight | sdk/src/duar_auth/authz_middleware.py:233-248 | in every run each key has at most one unfinished mint, and the table maps a key to a task exactly while that task is unfinished or its callback is queued |
| MintProtocolRuns.MintStartsAlone | sdk/src/duar_auth/authz_middleware.py:233-243 | when a mint starts, every earlier mint of that key has finished and its callback has run |
| MintProtocolRuns.AwaitersShareOutcome | sdk/src/duar_auth/authz_middleware.py:244-248 | all requests that awaited one mint get its token, or the same refusal when it failed, whenever they wake up |
| MintProtocolRuns.MintEndsExactly | sdk/src/duar_auth/authz_middleware.py:250-266 | a mint succeeds exactly on a body with a non-empty token, which is then cached until 80% of a numeric lifetime or for 240 seconds; else nothing is cached, and Duar's status is kept exactly when Duar refused |
| MintProtocolRuns.RepliedExactlyForReason | sdk/src/duar_auth/authz_middleware.py:217-369 | in every run a request is answered 400, 401, 403, 429 or 503 exactly when one of its steps had a reason for that status, each reason spelled out |
| MintProtocolRuns.PresentedTokenWins | sdk/src/duar_auth/authz_middleware.py:299-320 | in every run a request with a token in its own header goes by that one, whatever other headers it has, and one without goes by a minted token |
| MintProtocol.OnlyShieldProtectsMint | sdk/src/duar_auth/authz_middleware.py:244-246 | cancelling a waiting request follows what it awaits, and the mint survives if and only if that is the shielded future |
| MintProtocolRuns.DisconnectsTouchNothingShared | sdk/src/duar_auth/authz_middleware.py:244-246 | any number of cancellations, each following the await chain, changes no task, table, cache or other request |
| MintProtocolRuns.MintOutlivesCallers | sdk/src/duar_auth/authz_middleware.py:233-246 | in every run a mint stays unfinished exactly until its own answer arrives, and no mint is ever cancelled |
| MintProtocolRuns.DrainEmptiesTable | sdk/src/duar_auth/authz_middleware.py:238-243 | once all mints have finished, running the queued callbacks empties the table and lets every waiter resume |
| MintProtocolRuns.EvictionFollowsRecency | sdk/src/duar_auth/authz_middleware.py:262-265 | in every run the cache has at most 4096 entries sorted by last mint, and a key leaves only by a failed verification or when 4096 others were minted since |
| MintProtocolRuns.RemintIsJustified | sdk/src/duar_auth/authz_middleware.py:228-266 | after a mint, Duar is asked again for the key only if 80% of the numeric lifetime, or 240 seconds, have passed, the entry was popped by a failed verification on that key, or it was evicted |
| MintProtocolRuns.PopDropsNewerMint | sdk/src/duar_auth/authz_middleware.py:322-332 | a failed verification removes its key's entry, and that entry is of a newer mint than the failed one exactly when the key was minted again since |
| LateFailure.LateFailureDropsNewerMint | sdk/src/duar_auth/authz_middleware.py:322-332 | a run of twelve steps in which the late failure of a key's first token removes its second one from the cache |
| MintProtocolRuns.ServedExactlyWhileKept | sdk/src/duar_auth/authz_middleware.py:228-231 | a minted token is handed to the requests of its key exactly until 80% of a numeric lifetime or 240 seconds have passed, or a failed verification on the key, an eviction, or the key's next mint |
| MintProtocolRuns.RefusedTokenIsServedAgain | sdk/src/duar_auth/authz_middleware.py:334-369 | a token refused for its subject, scope or claims stays cached and is what the key's next request gets |
| MintProtocolRuns.ReuseInsideLifetime | sdk/src/duar_auth/authz_middleware.py:228-262 | a token served from the cache is its key's last mint and is between its receipt and 80% of a positive numeric lifetime, or 240 seconds |
| MintProtocolRuns.AdmissionIsBound | sdk/src/duar_auth/authz_middleware.py:322-371 | a request becomes admitted by its own verification only, exactly when subject, service scope and claims all match |
| MintProtocolRuns.RightWorkspace | sdk/src/duar_auth/authz_middleware.py:217-371 | if Duar mints for the workspace it was asked for, every admitted auto-resolved request has the workspace of its own header and the subject of its own IdP token |
| MintProtocolRuns.FailedTokenNeverServedAgain | sdk/src/duar_auth/authz_middleware.py:322-332 | if Duar never repeats a token, one that failed verification is never cached again and reaches no later request, by cache or by joining a mint |
| AuthzMiddlewareClass.AuthzMiddleware.AutoResolve | sdk/src/duar_auth/authz_middleware.py:209-246 | the code before the await decides as the protocol places the request and leaves both fields in the protocol's next state |
| AuthzMiddlewareClass.AuthzMiddleware.StoreMinted | sdk/src/duar_auth/authz_middleware.py:258-266 | the insert and its eviction loop leave the cache exactly as the protocol stores the mint |
| AuthzMiddlewareClass.AuthzMiddleware.MintReturned | sdk/src/duar_auth/authz_middleware.py:250-266 | from Duar's answer on, the mint ends as the protocol's task does and leaves both fields in the protocol's next state |
| AuthzMiddlewareClass.AuthzMiddleware.Done | sdk/src/duar_auth/authz_middleware.py:238-241 | the callback leaves both fields as the protocol's callback step does |
| AuthzMiddlewareClass.AuthzMiddleware.Unverifiable | sdk/src/duar_auth/authz_middleware.py:325-332 | a failed verification leaves both fields as the protocol's step does, for presented and resolved tokens |
| TtlCache.SortIsStable | sdk/src/duar_auth/permissions.py:69 | the sort by timestamp keeps an entry before any later one that is not older |
| TtlCache.GetExpires | sdk/src/duar_auth/permissions.py:33-41 | a read answers from an entry at most ttl old, drops an older one, touches no other |
| TtlCache.EvictKeepsNewest | sdk/src/duar_auth/permissions.py:60-71 | eviction keeps only unexpired entries, as many as fit, and drops an unexpired one only when more than maxsize are and every survivor is newer, ties by insertion |
| TtlCache.SetKeepsNewKey | sdk/src/duar_auth/permissions.py:43-46 | with a monotone clock the key just set survives its own eviction, timestamp ties included |
| TtlCache.JustSetIsThere | sdk/src/duar_auth/permissions.py:43-71 | in any run of reads, writes and invalidations with a monotone clock, what was just set is in the cache |
| TtlCache.AmortizedEviction | sdk/src/duar_auth/permissions.py:43-71 | in any run and for any clock readings the size stays within 1.5 maxsize, and each eviction is paid for by 1.5 maxsize + 1 - maxsize insertions |
| TtlCache.SetExactly | sdk/src/duar_auth/permissions.py:43-46 | a write evicts exactly when the store has outgrown 1.5 maxsize, and then to at most maxsize unexpired entries; else it only assigns, a present key keeping its place |
| TtlCache.InvalidateExactly | sdk/src/duar_auth/permissions.py:48-55 | invalidation removes exactly the entries whose key has one of the heads, all when given none |
| TtlCacheClass.Cache.Get | sdk/src/duar_auth/permissions.py:33-41 | the method returns and stores what the specification of a read says |
| TtlCacheClass.Cache.Set | sdk/src/duar_auth/permissions.py:43-46 | the method stores what the specification of a write says |
| TtlCacheClass.Cache.Invalidate | sdk/src/duar_auth/permissions.py:48-55 | the deletion loop removes exactly the keys with one of the prefixes |
| TtlCacheClass.Cache.Evict | sdk/src/duar_auth/permissions.py:60-71 | the two deletion loops leave exactly the specified store |
| PermissionClient.KeyInjective | sdk/src/duar_auth/permissions.py:198 | up to collisions of the token hash, two calls share a cache key exactly when all their arguments agree |
| PermissionClient.InvalidateEmpties | sdk/src/duar_auth/permissions.py:211-214 | the two prefixes cover every key the client makes, so a successful write empties its cache |
| PermissionClient.HitIsRecentAnswer | sdk/src/duar_auth/permissions.py:197-209 | whatever overlaps, a hit says what a reply of the server to the same arguments said, granted exactly when its first result is, stored at most ttl ago and since the last successful write |
| PermissionClient.HitPredatesWriteOnlyByOverlap | sdk/src/duar_auth/permissions.py:289-332 | a hit says what the server's reply to one call with the same arguments said, received at most ttl ago and since the last successful write, and asked for since that write if and only if no write succeeded while the call was in flight |
| PermissionClient.OverlappingReadOutlivesWrite | sdk/src/duar_auth/permissions.py:202-214 | a run in which an answer asked for before a write is served after it |
| PermissionClient.HitIsForCurrentScope | sdk/src/duar_auth/permissions.py:197-209 | a hit answers for the client's present scope if and only if the last re-scoping since its call was asked, if any, gave back the scope it was asked under |
| PermissionClient.OldScopeIsServed | sdk/src/duar_auth/permissions.py:197-209 | a run in which an answer asked for under one scope is served under the next |
| PermissionClient.StoredAnswerIsServed | sdk/src/duar_auth/permissions.py:197-209 | an answer just stored answers its own arguments with what the reply says, a denial included |
| PermissionClient.ServedExactlyForTtl | sdk/src/duar_auth/permissions.py:33-58 | after a reply, until a write succeeds or something is stored over it or evicts, its arguments are answered from the cache exactly for ttl, and with what it says |
| PermissionClient.AsksExactlyOnMiss | sdk/src/duar_auth/permissions.py:197-205 | the server is asked exactly when there is no hit, and always when there is no cache |
| PermissionClientClass.Client.Begin | sdk/src/duar_auth/permissions.py:305-309 | the code before the await returns the protocol's hit and leaves its store |
| PermissionClientClass.Client.Finish | sdk/src/duar_auth/permissions.py:325-332 | the code after the await returns the server's value and leaves the protocol's store |
| PermissionClientClass.Client.Rescope | sdk/src/duar_auth/duar.py:273-275 | re-pointing the client in place is the protocol's re-scoping and leaves the cache alone |
| PermissionClientClass.Client.InvalidateCache | sdk/src/duar_auth/permissions.py:211-214 | a successful write leaves the protocol's store |
| RequestAuth.MemoKeyInjective | sdk/src/duar_auth/auth.py:105-135 | the three families of memo keys never collide and determine their arguments |
| RequestAuth.DeduplicatesExactly | sdk/src/duar_auth/auth.py:100-108 | after an answer, in every continuation all answers for equal arguments agree with it and none is fetched again, if and only if no such call is in flight when it is given |
| RequestAuth.SequentialMemo | sdk/src/duar_auth/auth.py:92-144 | with sequential calls every later answer is that of the one successful upstream call |
| RequestAuth.AnsweredExactlyWhenFetched | sdk/src/duar_auth/auth.py:105-108 | a call is answered from the memo, without going upstream, exactly when an upstream call for its arguments has succeeded before, and with the last such answer |
| RequestAuth.FailuresAreNotStored | sdk/src/duar_auth/auth.py:106-107 | a key is memoized if and only if an upstream call for it has succeeded |
| RequestAuth.OverlapFetchesTwice | sdk/src/duar_auth/auth.py:106-107 | overlapping calls both go upstream and may be answered differently |
| RequestAuthStack.MemoIsServerReply | sdk/src/duar_auth/auth.py:105-144 | through both caches, a memoized `can` or `accessible` answer says what the server replied to a call with the same token and arguments, which when memoized was just arriving or at most ttl old |
| RequestAuthStack.MemoIsReachable | sdk/src/duar_auth/auth.py:92-144 | stacked on the client, among `check_action` calls and questions the memo answers, the memo does only what its own protocol allows |
| RequestAuth.Auth.Begin | sdk/src/duar_auth/auth.py:103-106 | a missing client raises, else the memo answers as the protocol does |
| RequestAuth.Auth.Finish | sdk/src/duar_auth/auth.py:107-108 | a successful call is stored and read back as the protocol does |
| Base64Url.UrlEncodeText | sdks/js/src/pkce.ts:5-9 | stripping removes all of the padding and nothing else: the print is the letters of table 2 of RFC 4648 for the sextets |
| Base64Url.SextetsAreTheBits | sdks/js/src/pkce.ts:8 | each group of three bytes is the same 24-bit number as its four sextets, a last shorter group zero-filled |
| Base64Url.PrintsVectors | sdks/js/src/pkce.ts:5-9 | the printer on test vectors of section 10 of RFC 4648 |
| Base64Url.UrlEncodeShape | sdks/js/src/pkce.ts:5-9 | n bytes print to 4 characters per 3 bytes and 0, 2 or 3 more, never 1 mod 4, all URL-safe |
| Base64Url.PaddedUndoesPrint | sdks/js/src/jwt-utils.ts:14-15 | translating and padding a print gives back the padded base64 text it was made from |
| Base64Url.TokenSplits | sdks/js/src/jwt-utils.ts:9-12 | for all byte strings, a token of three prints splits into exactly those three |
| Base64Url.ParsesExactly | sdks/js/src/jwt-utils.ts:8-16 | any token is a format error exactly when it has not two dots, and else undecodable exactly when the payload between them, without spaces or padding, has length 1 mod 4 or an unreadable character |
| Base64Url.TokenRoundTrip | sdks/js/src/jwt-utils.ts:8-16 | for all byte strings, a token of three prints parses to the middle one |
| Base64Url.UrlEncodeInjective | sdks/js/src/pkce.ts:5-9 | different byte strings print differently |
| Base64Url.SegmentReprints | sdks/js/src/jwt-utils.ts:12-16 | a URL-safe segment decodes exactly when its length is not 1 mod 4, and reprints to itself exactly when its left-over bits are zero |
| Base64Url.Base64UrlEncode | sdks/js/src/pkce.ts:5-9 | the byte loop through a binary string prints the bytes it was given |
| Base64Url.GenerateCodeVerifier | sdks/js/src/pkce.ts:12-16 | the verifier of 32 bytes has 43 characters, all unreserved |
| ClientLogger.NothingLostOrReordered | admin/src/lib/logger.ts:26-64 | in every interleaving of calls, timeouts, page hides and overlapping fetches the logged events are the batches sent followed by the buffer, in order |
| ClientLogger.EveryCallIsRecorded | admin/src/lib/logger.ts:18-37 | in every interleaving the m-th event of the batches and then the buffer is the m-th call's: its level, its prefixed name, its own fields, and the last non-empty request id unless it brings one |
| ClientLogger.CallFlushesExactlyWhenFull | admin/src/lib/logger.ts:32-46 | a call hands over a batch exactly when it is the fiftieth event waiting, and then all fifty |
| ClientLogger.BoundedAndScheduled | admin/src/lib/logger.ts:32-46 | in every interleaving batches have 1 to 50 events, the buffer stays below 50, and exactly one timeout is scheduled when it is non-empty, none when it is empty |
| ClientLogger.FinallyIsIdle | admin/src/lib/logger.ts:56-63 | the re-arm in the finally block never happens in any reachable state |
| ClientLogger.TimerDeliversAll | admin/src/lib/logger.ts:39-69 | when the timeout fires or the page hides, everything logged so far has been handed over |
| ClientLogger.Shipper.ClientLog | admin/src/lib/logger.ts:26-37 | a call changes the variables as the protocol does and hands over exactly the protocol's batch |
| ClientLogger.Shipper.Flush | admin/src/lib/logger.ts:39-64 | a flush, also one whose hand-over throws, changes the variables as the protocol does |
| Redaction.RedactIsClean | service/src/logging_redaction.py:41-61 | at every depth the output has no e-mail key, and only the placeholder under a denylisted key |
| Redaction.RedactionIsAProjection | service/src/logging_redaction.py:41-61 | redaction changes a value if and only if it is not clean, so redacting twice is redacting once, key collisions included |
| Redaction.RedactLogs | service/src/logging_redaction.py:31-61 | at every depth each output key holds, from the last entry written under it, the text after the last @ of an e-mail, the placeholder for a secret, or the redacted value, and sequences are redacted element by element |
| Redaction.OutputIsLastWriter | service/src/logging_redaction.py:43-52 | for every prefix of the mapping, under each output key is the last entry written to it, key collisions included |
| Redaction.RedactMapping | service/src/logging_redaction.py:41-53 | the loop computes the recursive redaction, and its output is what the input is to be logged as |
| RealmScope.ScopeFollowsDuar | sdk/src/duar_auth/duar.py:136-278 | over every sequence of lazy creations and discoveries of realms entered, changed or left, effective scope and all clients are what Duar said last |
| RealmScope.CoherentUnlessStranded | sdk/src/duar_auth/duar.py:268-277 | whatever the replies, clients and effective scope are apart exactly when a client was used before a scope-less reply that followed a foreign scope, until a reply names a scope again |
| RealmScope.ScopelessReplyStrands | sdk/src/duar_auth/duar.py:268-277 | a run in which a scope-less reply leaves a client under the realm |
| RealmScope.Duar.FetchWhoami | sdk/src/duar_auth/duar.py:247-278 | clients are re-scoped in place and never replaced, so captured references follow |
| RealmScope.Duar.GetAuth | sdk/src/duar_auth/duar.py:316-322 | the captured references are the instance's own clients |
| RealmScope.Duar.Permissions | sdk/src/duar_auth/duar.py:149-159 | a client is created once under the effective scope and returned again as the same object |
| M2mToken.PairedWhenRepaired | sdk/src/duar_auth/duar.py:407-410 | in every run token and refresh time are one reply's exactly when each reply with a token and no lifetime was followed by a complete one |
| M2mToken.ServedInsideLifetime | sdk/src/duar_auth/duar.py:397-410 | however calls overlap, a served token is inside 80% of its own reply's lifetime if and only if each such reply was followed by a complete one |
| M2mToken.ServedExactlyUntil | sdk/src/duar_auth/duar.py:397-410 | in a run with each such reply repaired, the token is the last reply's and is served exactly until 80% of its lifetime, when Duar is called |
| M2mToken.SequentialServedInside | sdk/src/duar_auth/duar.py:397-410 | with sequential calls a served token is inside 80% of its own reply's lifetime, truncated replies included, unless some reply had a null token and a positive lifetime |
| M2mToken.NullTokenLendsItsLifetime | sdk/src/duar_auth/duar.py:407-410 | a run of sequential calls in which a token is served on the refresh time of a reply with a null token |
| M2mToken.TruncatedReplyMixesPairs | sdk/src/duar_auth/duar.py:407-410 | a run in which a token is served on another reply's refresh time |
| McpGate.RegisteredActions | sdk/src/duar_auth/mcp.py:61-76 | for all registered service names, a tool has an action exactly by a condition on its own name, and the action determines service and tool |
| McpGate.ActionInjective | sdk/src/duar_auth/mcp.py:64-76 | for service names without dots the action determines service and tool |
| McpGate.AcceptedButIllFormed | sdk/src/duar_auth/mcp.py:61-76 | the only ill-formed actions accepted are well-formed ones followed by a newline |
| McpGate.SyncTools | sdk/src/duar_auth/mcp.py:122-140 | one ill-formed gated name and nothing is sent; otherwise exactly the gated tools' actions, in order |
| McpGate.GateMatchesRegistration | sdk/src/duar_auth/mcp.py:100-119 | a gated tool of a registered server runs exactly when its caller is authenticated, the session stateless, and Duar grants one of the registered actions, namely its own |
| McpGate.OneGate | sdk/src/duar_auth/mcp.py:160-164 | however often a server is mounted, and with whichever instances, it has one gate, the first mount's, outermost, unless it had one before |
| McpGate.GateFailsClosed | sdk/src/duar_auth/mcp.py:79-119 | nothing runs or is asked without an authenticated user, in a stateful session or for no known tool, and a gated tool runs exactly on a grant |
| McpGate.GatedInOrder | sdk/src/duar_auth/mcp.py:131-137 | the gated tools of two lists are those of the first followed by those of the second |
| McpGate.SurvivingGateAgrees | sdk/src/duar_auth/mcp.py:122-164 | what the surviving gate asks for a gated tool is what a given mount registered exactly when that mount's instance has the same service and scope |

## Left out

- JWT signatures, JWKS fetching, SHA-256, UUID parsing and randomness: arbitrary functions or inputs.
- HTTP transport, response parsing and the web frameworks: a call is answered or fails.
- Requests without auto-resolve beyond their verification, excluded paths and `OPTIONS`: they do not touch the cache.
- Response bodies and the `Retry-After` header of the middleware: only status codes are modelled.
- Exceptions in a mint other than `DuarError`, HTTP errors and undecodable bodies, and shutdown of the event loop.
- Rounding of `0.8 * expires_in` and non-finite numbers in it: times are reals. A boolean `expires_in` counts as 0 or 1, as in Python.
- Waking at once when a request joins a mint whose callback is still queued: it is modelled as waking right after that callback, which no other step can tell apart.
- `TtlCache`: keys are a head and further fields, values the two kinds of permission result, where the code takes any objects.
- The list that `accessible` returns is the cached object itself; callers are assumed not to change it.
- The lookup that precedes a share, unshare or visibility change: a write succeeds or it does not.
- Identity properties, `SystemAuth` and the pass-through methods of `RequestAuth`: one-line facts.
- `JSON.parse`, text decoding and the mapping of claims after `atob`.
- The five seconds of the logger's timeout: once set, it may fire at any time.
- Console output of the logger in development, and whether a fetch that was started succeeds: failed batches are dropped by design.
- The catch-all of `redact_processor` and tuple subclasses: redaction itself is total here.
- Tokens of a machine-to-machine reply that are neither text nor null.
- Verification of machine-to-machine tokens, and whether a `whoami` body is an object.
- Mounting checks of `mount_mcp` other than the gate, and its lifespan wrapper.
