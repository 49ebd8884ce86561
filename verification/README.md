# QuanSec, modelled and verified

QuanSec is a control panel for post-quantum TLS, IPsec and SSH. This project models the
parts of it whose correctness depends on history or on arithmetic, and proves what they
promise over every input, every run or every schedule.

| file | models | main results |
|---|---|---|
| `Attacks.dfy`, `NumberTheory.dfy`, `Options.dfy` | Pollard rho factoring, the trial-division prime test, the key-breaking driver | the loop stops within any divisor of n rounds; what it returns is a proper divisor; the prime test is exact below 1009 squared and wrong there; a key reported broken is broken |
| `RateLimit.dfy` | the login throttle over Redis and over PostgreSQL, with failover | the attempts let through in k windows, whatever fails; when the two stores agree; when a lock refuses |
| `Tokens.dfy`, `TokenFamilies.dfy`, `TokenRuns.dfy` | the refresh-token table | the table is one chain per family, in every run; a token is accepted at most once; reuse ends the family; a purge changes no verdict |
| `BrowserClient.dfy` | the single-flight refresh of the web client against that table | the client never causes reuse to be detected, in any interleaving |
| `Collector.dfy`, `Stats.dfy` | the NGINX log tailer and its session table, and the counts over it | after a completed cycle the table is exactly the complete lines, whatever crashed before; the counts add up |
| `TlsService.dfy`, `TlsPolicy.dfy`, `TlsStatus.dfy`, `Text.dfy` | the configuration printer and parser, the apply machine with its state table, the published status | parsing what was rendered gives what was meant; an applied policy is in sync and fail-closed; when enforcement is reported |
| `Scopes.dfy`, `ApiKeys.dfy` | scopes, roles and API keys that mint API keys | expansion is a closure; no chain of keys and no history of role changes gives a key more than its owner and its minting keys have |
| `HostAgent.dfy` | the host agent that rewrites StrongSwan and SSH files and rolls back | only the targeted lines change; the file is that of the last policy that went through; when appending is safe |
| `MlKem.dfy` | the two-role ML-KEM key exchange object | both sides end with the same secret, in every run that keeps the roles |

Code that updates state is a class or a method proved against a function on values
(`Throttle` against `Check`, `TokenStore` against `Rotate` and its companions, and so on);
the theorems are about those functions.

## What is assumed

- Tokens: each endpoint is one atomic step on the table. Generated tokens and family ids
  are fresh, the hash is injective, and the clock does not run backwards.
- Throttle: instants are in milliseconds. Redis `TTL` and the `::int` cast of PostgreSQL
  both round to whole seconds, halves upward. Whether Redis still holds a key at the very
  instant of its deadline is the parameter `keepAtDeadline`. The window is positive.
- Browser: one client, no lost responses. A request is served in one step with the cookie
  it was sent with. A failure reply may or may not make the browser drop the cookie. A
  logout may be served and answered at any time, or more than once.
- Collector: the log is UTF-8 with LF line ends, and decoding a line as JSON is a
  parameter, any partial function.
- TLS configuration: a configuration is its sequence of lines and no value holds a line
  feed. The values of the policy are nonempty and without `;`. A directive is the
  first line that has it. NGINX accepts or refuses a file as an outcome.
- Host agent: files are ASCII with LF line ends, patterns are searched line by line, and
  the disk and the daemons are outcomes. A daemon command that fails may leave the daemon
  with any configuration.
- ML-KEM: the three primitives are parameters. Only their lengths, and that decapsulation
  undoes encapsulation, are assumed.

## Findings

- An overflow does not always refuse every attempt of its lockout: the lock ends half a
  second early, because the remaining time is rounded before it is compared with zero.
  `OverflowLocksIff` says exactly when the whole lockout holds, `LockRefusesIff` which
  attempts are refused, and `LockoutEndsEarly` is a run that shows it.
- The two throttle stores treat an attempt on the very deadline differently
  (`StoresAgreeIff`, `StoresDisagreeOnDeadline`).
- The trial-division test accepts 1009 squared (`TrialFailsAt`); below it is exact.
- A group list that holds a separator, such as a trailing colon, can be fail-closed and,
  if NGINX accepts it, applied, yet the status does not recognise it and says `classical`
  (`ConfiguredIffNoInnerSeparator`, `AppliedButNotConfigured`,
  `AppliedPolicyIsRecognised`).
- After a log rotation a new line whose offset is already in the table is dropped, the
  first line of the new log to begin with (`RotationDropsFirstLine`,
  `RotationLosesALine`; `RotationIsCompleteIff` says exactly when nothing is lost).
- Appending the SSH directive to a file that does not end in a line feed glues it to the
  last line, and the rewrite is then no longer idempotent (`LastPolicyWinsIff`).
- A key exchange object keeps its buffers when a primitive fails, so the next request for
  a value succeeds with what is in them (`FailuresAreForgotten`).
- A group logged as `.` is no group to `classify_group`, but it is stored, so the
  statistics count that connection as classical rather than unknown
  (`DotCountsAsClassical`, `DotIsTheOnlyUnlabelled`, `UnknownIsUnlabelledIff`).

## Model

| member | source | states |
|---|---|---|
| Attacks.PollardRho | quansec/protocols/ipsec/attacks.py:77-90 | the loop terminates for every odd n >= 3 and all draws, after as many rounds as the first meeting of tortoise and hare, and returns the gcd there, or nothing if that is n |
| Attacks.FirstMeeting | quansec/protocols/ipsec/attacks.py:85-89 | a first round whose gcd is not 1 exists for every n >= 2 |
| Attacks.CongruentWalks | quansec/protocols/ipsec/attacks.py:86-88 | modulo a divisor of n the walk is again such a walk |
| Attacks.Periodic | quansec/protocols/ipsec/attacks.py:86-88 | once two residues agree the residues repeat with that period for ever |
| Attacks.MeetsModulo | quansec/protocols/ipsec/attacks.py:85-89 | tortoise and hare agree modulo a divisor p within p rounds |
| Attacks.StopsWithinAnyDivisor | quansec/protocols/ipsec/attacks.py:85-89 | the loop needs at most p rounds for every divisor p >= 2 of n, so at most n |
| Attacks.StopsWithinSquareRoot | quansec/protocols/ipsec/attacks.py:85-89 | for composite n the square of the number of rounds is at most n |
| Attacks.FactorIsProperDivisor | quansec/protocols/ipsec/attacks.py:90 | a returned number lies strictly between 1 and n and divides n |
| Attacks.GivesUpIffWalkMeets | quansec/protocols/ipsec/attacks.py:90 | None is returned exactly when the two positions are equal at the first meeting |
| Attacks.PrimeNeverSplits | quansec/protocols/ipsec/attacks.py:77-90 | for a prime n the loop always gives up |
| Attacks.RhoFollowsOrbit | quansec/protocols/ipsec/attacks.py:77-90 | along any sequence of x, x^2 + c, ... modulo n the answer is the greatest common divisor of n and the difference of members m and 2m for the least m where it is not 1 |
| Attacks.IsPrime | quansec/protocols/ipsec/attacks.py:97-103 | the loop accepts exactly the n >= 2 with no divisor up to their square root below 1000 |
| Attacks.TrialIsPrimeOrRough | quansec/protocols/ipsec/attacks.py:97-103 | accepted means prime, or without a divisor in 2..999 |
| Attacks.TrialIsExactBelow | quansec/protocols/ipsec/attacks.py:97-103 | the test is primality for every n below 1009 * 1009, so below 1,000,000 |
| Attacks.TrialFailsAt | quansec/protocols/ipsec/attacks.py:97-103 | that bound is sharp: 1009 * 1009 is accepted and composite |
| Attacks.PrivateKey | quansec/protocols/ipsec/attacks.py:123-128 | from a proper divisor: p * q = n, both above 1, and 65537 * d = 1 modulo (p-1)(q-1), or the exponent is not invertible |
| Attacks.PrivateExponentMeans | quansec/protocols/ipsec/attacks.py:126-127 | 65537 times d is 1 modulo (p-1)(q-1), and d is below it |
| Attacks.BreakClassicalKey | quansec/protocols/ipsec/attacks.py:93-129 | failure exactly when none of the twenty attempts splits n; otherwise the factor is that of the first attempt that does, p * q = n with both above 1, and d a private exponent, or the exponent is not invertible; an even n is always split by 2 |
| Attacks.FactorsAreTheSecretPrimes | quansec/protocols/ipsec/attacks.py:111-128 | for two primes the factors found are those two |
| NumberTheory.ModInverse | quansec/protocols/ipsec/attacks.py:127 | `pow(e, -1, phi)`: there is an inverse exactly when the gcd is 1, and then it is one, below the modulus |
| NumberTheory.GcdIsGreatest | quansec/protocols/ipsec/attacks.py:89 | `math.gcd`: every common divisor divides it |
| NumberTheory.CompositeHasSmallDivisor | quansec/protocols/ipsec/attacks.py:100-102 | a composite number has a proper divisor up to its square root |
| RateLimit.Throttle.CheckRedis | quansec/core/ratelimit.py:104-129 | the Redis commands, with a failure at any of them, do to the keys and return what the transition function says |
| RateLimit.Throttle.CheckPostgres | quansec/core/ratelimit.py:132-176 | likewise for the upsert, the block test and the lock update |
| RateLimit.Throttle.CheckAttempt | quansec/core/ratelimit.py:62-101 | Redis first, PostgreSQL when it raises, the request allowed when both do |
| RateLimit.Throttle.Reset | quansec/core/ratelimit.py:179-201 | every reachable store forgets the bucket, counter and lock; the other keeps it |
| RateLimit.BackendBound | quansec/core/ratelimit.py:88-176 | over any trace in time order, with any failures, one backend allows at most (k+1) * limit attempts in any half-open interval of k windows |
| RateLimit.FailoverBound | quansec/core/ratelimit.py:88-101 | both backends together, with arbitrary failover, allow at most 2 * (k+1) * limit |
| RateLimit.PotentialBounds | quansec/core/ratelimit.py:104-176 | what a store can still allow before an instant is bounded by its open window and the windows that can still start |
| RateLimit.ThrottledIsSum | quansec/core/ratelimit.py:88-101 | each throttled attempt is allowed by exactly one backend |
| RateLimit.RemainingIsExact | quansec/core/ratelimit.py:129-176 | allowed with `remaining` r means exactly the next r attempts of that window succeed, counting down to 0 |
| RateLimit.StoresAgreeIff | quansec/core/ratelimit.py:104-176 | from empty, the two stores give the same verdicts and remaining counts up to and including the first refusal exactly when no attempt falls on a window's deadline, or Redis keeps a key at its deadline |
| RateLimit.StoresDisagreeOnDeadline | quansec/core/ratelimit.py:116-152 | a concrete trace on which they differ |
| RateLimit.OverflowLocks | quansec/core/ratelimit.py:123-174 | in any state, an overflow with lockout L refuses every attempt up to half a second before L seconds have passed |
| RateLimit.OverflowLocksIff | quansec/core/ratelimit.py:104-176 | an overflow with lockout L refuses every attempt of the next L seconds exactly when the exceeded window is still open at their end, or the limit is zero |
| RateLimit.LockRefusesIff | quansec/core/ratelimit.py:104-176 | under a lock an attempt is refused exactly when it comes at least half a second before the deadline or its window is exhausted |
| RateLimit.LockoutEndsEarly | quansec/core/ratelimit.py:109-161 | in both stores a two-second lockout lets an attempt through after 1.501 seconds |
| RateLimit.RetryAfterIsTheLock | quansec/core/ratelimit.py:107-174 | a caller refused by a lock is told exactly how many seconds it still refuses |
| RateLimit.RetryAfterIsTheWindow | quansec/core/ratelimit.py:116-176 | without a lockout the window is over half a second after the announced time, and in Redis still open half a second before |
| RateLimit.RedisCountsIff | quansec/core/ratelimit.py:113-128 | an attempt is counted unless locked out or its increment never arrived, its window starts unless EXPIRE did not, and it locks unless the check ended before SETEX |
| RateLimit.PostgresCountsIff | quansec/core/ratelimit.py:141-174 | every attempt that reaches the table is counted, in a new window once the old one has passed, and the block is kept until an attempt over the limit renews it |
| RateLimit.WhoAnswers | quansec/core/ratelimit.py:86-101 | Redis answers if it can, then PostgreSQL, and if neither does the request is allowed with the full limit remaining |
| RefreshTokens.TokenStore.Lookup | quansec/core/tokens.py:292-302 | finds the row of a digest, if there is one |
| RefreshTokens.TokenStore.IssueToken | quansec/core/tokens.py:215-255 | adds one unrevoked row with a new id and the fixed lifetime |
| RefreshTokens.TokenStore.RotateToken | quansec/core/tokens.py:268-362 | the verdict and the new table: reuse checked first, then revocation, then expiry, then a successor in the same family |
| RefreshTokens.TokenStore.RevokeToken | quansec/core/tokens.py:365-380 | revokes that one row if it is unrevoked, and says whether anything changed |
| RefreshTokens.TokenStore.RevokeFamily | quansec/core/tokens.py:383-392 | revokes exactly the unrevoked rows of the family and counts them |
| RefreshTokens.TokenStore.RevokeAllForUser | quansec/core/tokens.py:395-410 | revokes exactly the unrevoked rows of the user and counts them |
| RefreshTokens.TokenStore.PurgeExpired | quansec/core/tokens.py:413-426 | deletes exactly the rows expired before the cutoff, clears references to them, and counts them |
| RefreshTokens.TokenStore.ListSessions | quansec/core/tokens.py:429-439 | the unrevoked, unexpired rows of the user |
| TokenFamilies.IssueMeansLogin | quansec/core/tokens.py:232-255 | issuing without a family opens a chain of one live link |
| TokenFamilies.RevokeMeansKill | quansec/core/tokens.py:383-410 | revoking the unrevoked rows of a set of families kills those chains and touches no other |
| TokenFamilies.UnrevokedIsHead | quansec/core/tokens.py:385-391 | at most one row of a family is unrevoked: the end of its chain |
| TokenFamilies.LogoutMeansKill | quansec/core/tokens.py:365-380 | logout kills the chain exactly when the token is its live end |
| TokenFamilies.RevokeAllMeansKill | quansec/core/tokens.py:395-410 | revoke-all kills every chain of the user |
| TokenFamilies.VerdictFromRow | quansec/core/tokens.py:304-344 | the columns of the row decide the same verdict as the place of the token in its chain |
| TokenFamilies.ExtendMeans | quansec/core/tokens.py:346-362 | inserting the successor and linking the old row adds one link, with `parent_id` and `replaced_by` inverse |
| TokenFamilies.RotateMeansPresent | quansec/core/tokens.py:268-362 | rotation on the table is presentation of the token on its chain, with the same verdict |
| TokenFamilies.PurgeMeansPrefix | quansec/core/tokens.py:413-426 | a purge removes a prefix of each chain |
| TokenRuns.RunMeans | quansec/core/tokens.py:215-426 | every table of every run of login, refresh, logout, revoke-all and purge is a set of chains |
| TokenRuns.EveryTableIsChains | quansec/core/tokens.py:215-426 | the same from the empty table |
| TokenRuns.AtMostOneLiveToken | quansec/core/tokens.py:385-439 | in every run a family has at most one unrevoked row and lists at most one session |
| TokenRuns.AcceptedAtMostOnce | quansec/core/tokens.py:304-362 | in every run a token accepted once is never accepted again: it is reported as reuse, or unknown once purged |
| TokenRuns.ReuseEndsTheFamily | quansec/core/tokens.py:324-334 | after reuse is detected no token of that family is ever unrevoked, listed or accepted again |
| TokenRuns.PurgeKeepsVerdicts | quansec/core/tokens.py:413-426 | the same for every table that is a set of chains |
| TokenRuns.PurgeIsInvisible | quansec/core/tokens.py:413-426 | in every run a purge removes no unexpired row and changes no verdict on a token still in the table |
| TokenRuns.ListedIffAccepted | quansec/core/tokens.py:429-439 | in every run a session is listed for a user exactly when the row is that user's and presenting its token at that moment is accepted |
| TokenRuns.RevokeAllEmptiesList | quansec/core/tokens.py:395-410 | revoke-all empties the user's list and leaves every other user's unchanged |
| TokenRuns.LogoutRemovesOne | quansec/core/tokens.py:365-380 | logout takes exactly the session of its token off the lists |
| TokenRuns.PurgeKeepsIff | quansec/core/tokens.py:421-425 | a row survives a purge exactly when it had not expired the given number of days before |
| TokenRuns.EventMeans | quansec/core/tokens.py:215-426 | what each event does to the rows, written out |
| BrowserClient.QuansecClient.Refresh | quansec-ui/src/lib/api.ts:493-496 | a caller joins the refresh under way, or sends one with the cookie of the moment |
| BrowserClient.QuansecClient.CompleteRefresh | quansec-ui/src/lib/api.ts:496-517 | a grant installs token, cookie and CSRF value; a refusal clears the token; either way the flight ends |
| BrowserClient.QuansecClient.CompleteLogin | quansec-ui/src/lib/api.ts:562-587 | a login installs the new session and leaves a refresh under way alone |
| BrowserClient.QuansecClient.CompleteLogout | quansec-ui/src/lib/api.ts:590-602 | local state is cleared whatever the server said |
| BrowserClient.ServedRefresh | quansec/protocols/auth_router.py:331-457 | a refresh sent by this client is never answered `reuse_detected`, and a grant makes the new cookie the end of its chain |
| BrowserClient.MoveConsistent | quansec/protocols/auth_router.py:156-544 | every send, service and answer keeps each cookie the client holds or will receive unrotated, but for the one a refresh replaces |
| BrowserClient.ConsistentRunsNeverReuse | quansec-ui/src/lib/api.ts:493-602 | the same over every run from any such state |
| BrowserClient.SingleFlightNeverReuses | quansec-ui/src/lib/api.ts:486-602 | one client with no lost response never sees `reuse_detected`, under any interleaving of refresh callers, logins, logouts, revoke-all, purges and other users |
| BrowserClient.ParallelRefreshIsReuse | quansec-ui/src/lib/api.ts:486-494 | without single flight two refreshes with one cookie are reuse and end the family |
| BrowserClient.RefreshRoundTrip | quansec-ui/src/lib/api.ts:493-521 | a refresh presents the browser's cookie once, however many callers join, and ends with the new token and cookie or with no token |
| BrowserClient.RejectedRefresh | quansec/protocols/auth_router.py:331-457 | a refresh that is throttled, refused for its CSRF value or without a cookie touches no row and signs the client out |
| BrowserClient.LoginRoundTrip | quansec/protocols/auth_router.py:156-218 | a login opens one session and hands the client its token and cookie |
| BrowserClient.LogoutRoundTrip | quansec/protocols/auth_router.py:463-508 | a logout revokes the session of the cookie, which is never accepted again, and clears the client's token and CSRF value |
| BrowserClient.SignedOutUntilGranted | quansec-ui/src/lib/api.ts:590-602 | after a logout no access token is held until a login or a granted refresh, whatever else happens |
| Collector.ClassifyGroup | quansec/protocols/tls/collector.py:58-77 | a group is called hybrid only if one was recorded, and then has a normalised name |
| Collector.HybridIffNamed | quansec/protocols/tls/collector.py:58-77 | a group is hybrid exactly when its name contains mlkem, ml-kem or kyber, in any case, whichever table it is in; it has a label exactly when it is a group |
| Collector.LabelOf | quansec/protocols/tls/collector.py:36-77 | the label of every listed name, and of an unlisted one the name itself |
| Collector.VerifyResultMeans | quansec/protocols/tls/collector.py:212-223 | true exactly for SUCCESS, unknown exactly for NONE or nothing |
| Collector.ParsedFields | quansec/protocols/tls/collector.py:130-193 | every line that decodes becomes a session with its offset and its fields, and is hybrid exactly when it names such a group, unknown exactly without one |
| Collector.DotIsTheOnlyUnlabelled | quansec/protocols/tls/collector.py:67-77 | `.` is the one group that is stored although it gets no label |
| Collector.Clean | quansec/protocols/tls/collector.py:455-460 | empty and `-` fields are absent |
| Collector.ConnectionIdsDistinct | quansec/protocols/tls/collector.py:196-209 | equal ids mean the same listener, `unknown` included, and the same connection, if the listeners or the connections hold no colon |
| Collector.ConnectionIdsEqualIff | quansec/protocols/tls/collector.py:196-209 | ids are equal exactly for the same listener and connection, or where a colon lets part of one pass for the other |
| Collector.ConnectionIdText | quansec/protocols/tls/collector.py:196-209 | the id is the listener, or `unknown`, a colon and the connection |
| Collector.LinesAreExact | quansec/protocols/tls/collector.py:262-279 | from a line start, splitting yields exactly the complete lines with their true offsets and ends at the start of the partial one |
| Collector.ReadFrom | quansec/protocols/tls/collector.py:244-279 | the loop returns those lines and that offset; from 0 after truncation; nothing if missing, unchanged, unreadable or cut short before the read |
| Collector.InsertedRows | quansec/protocols/tls/collector.py:311-351 | inserts add exactly the missing keys and change no existing row |
| Collector.LogCollector.InsertSessions | quansec/protocols/tls/collector.py:311-351 | the loop does that and counts the new rows |
| Collector.LogCollector.CollectOnce | quansec/protocols/tls/collector.py:365-407 | one cycle, disabled, without a log, unreadable, or ending anywhere, leaves the stated table and offset |
| Collector.StaysSound | quansec/protocols/tls/collector.py:311-407 | every append, half lines included, and every cycle, whatever size it sees and wherever it fails or crashes, keeps the offset at a line start and every row equal to the line at its key |
| Collector.RunsStaySound | quansec/protocols/tls/collector.py:244-407 | the same over every schedule |
| Collector.CycleIsComplete | quansec/protocols/tls/collector.py:365-407 | after a completed cycle the table holds exactly one row per parseable complete line, keyed by its byte offset |
| Collector.CompletedReadIsComplete | quansec/protocols/tls/collector.py:244-407 | any completed cycle that reads the log, however stale the size it saw, leaves it recorded to its last complete line |
| Collector.FailedCycles | quansec/protocols/tls/collector.py:365-407 | a cycle that does not complete never moves the offset, one that cannot read records nothing, and one that crashes after n rows has recorded the first n lines it read that decode |
| Collector.CollectionIsExact | quansec/protocols/tls/collector.py:244-407 | from the empty table, after any schedule, a completed cycle leaves exactly one row per parseable complete line |
| Collector.ScheduleLeavesNoTrace | quansec/protocols/tls/collector.py:365-407 | two schedules over the same file end, after one completed cycle, in the same table and offset |
| Collector.RotationKeepsOldRows | quansec/protocols/tls/collector.py:255-258 | after a detected rotation each new line has a row, which is the old one where its offset was taken |
| Collector.RotationIsCompleteIff | quansec/protocols/tls/collector.py:255-258 | the new log is recorded in full exactly when, wherever both logs have a line at the same offset, the two give the same row |
| Collector.RotationDropsFirstLine | quansec/protocols/tls/collector.py:255-258 | if both logs begin with a parseable line, the first line of the new one is never recorded |
| Collector.RotationLosesALine | quansec/protocols/tls/collector.py:255-258 | two concrete logs of one line each, the second of which is lost |
| Stats.CountsAddUp | quansec/protocols/tls/stats.py:51-85 | on every table the collector builds, total = hybrid + classical + unknown |
| Stats.StatsFollowLog | quansec/protocols/tls/stats.py:51-85 | on every collector-built table a connection counts as hybrid exactly when one of its lines logged a post-quantum group, as classical when lines logged only others, as unknown when none logged a group |
| Stats.SameSessionIff | quansec/protocols/tls/stats.py:53-62 | rows are one session exactly when they name the same connection |
| Stats.HybridWithoutGroupCountsTwice | quansec/protocols/tls/stats.py:51-85 | on a table it does not build, a hybrid row without a group is counted twice |
| Stats.DotCountsAsClassical | quansec/protocols/tls/stats.py:51-85 | a connection whose one line has the group `.` is counted as classical |
| Stats.UnknownIsUnlabelledIff | quansec/protocols/tls/stats.py:51-85 | the connections counted as unknown are those without a named group exactly when none logged `.` without ever a named group |
| Stats.RequestLineOnlyStrengthens | quansec/protocols/tls/stats.py:51-85 | a further line on a connection keeps the total and can only move that connection from unknown to classical to hybrid |
| TlsService.ListenFound | quansec/protocols/tls/service.py:244-373 | the first listen directive is the data plane's own, with or without the portal server |
| TlsService.ProtocolsFound | quansec/protocols/tls/service.py:686-711 | the first `ssl_protocols` holds the rendered protocols, stripped, although the portal repeats the directive |
| TlsService.ConfCommandsFound | quansec/protocols/tls/service.py:686-711 | likewise for groups and ciphersuites, told apart by their second word |
| TlsService.EarlyDataFound | quansec/protocols/tls/service.py:686-711 | likewise for early data |
| TlsService.VerifyClientFound | quansec/protocols/tls/service.py:686-711 | client verification is found exactly when mTLS was rendered, even past the portal |
| TlsService.ParseOfRender | quansec/protocols/tls/service.py:140-373 | parsing a rendered configuration returns the protocols, groups, ciphersuites, mTLS and early data it was rendered from, stripped of outer white space, under every override |
| TlsService.ParseWithOverrides | quansec/protocols/tls/service.py:244-373 | what an instance overrides is what is read back, field by field, and the rest is the settings' |
| TlsService.PortalReads | quansec/protocols/tls/service.py:140-241 | the portal server by itself reads as TLS 1.3 with the portal's own groups, never early data and never mTLS |
| TlsService.PortalOnlyIfEnabled | quansec/protocols/tls/service.py:140-373 | the portal server is in the file exactly when it is included and enabled, after the strict one |
| TlsService.ListenerSays | quansec/protocols/tls/service.py:334-341 | the strict listener has the configured name, certificate with its key, and log |
| TlsService.MutualTlsSays | quansec/protocols/tls/service.py:277-284 | with mTLS, and only then, clients are verified against the configured authority |
| TlsService.LocationsSay | quansec/protocols/tls/service.py:350-371 | the strict server passes only the data plane's path to the backend and answers 404 elsewhere |
| TlsService.PortalSays | quansec/protocols/tls/service.py:168-175 | the portal server has the same certificate and its own log |
| TlsService.PortalForwards | quansec/protocols/tls/service.py:202-239 | the portal passes the API to the backend and everything else to the user interface |
| TlsService.GlobalSays | quansec/protocols/tls/service.py:308-318 | the process id and error log are the configured ones |
| TlsPolicy.NamesAreStretches | quansec/protocols/tls/policy.py:62-64 | the names of a group list are exactly its maximal stretches without separators |
| TlsPolicy.FallbacksAreTheOthers | quansec/protocols/tls/policy.py:80 | the fallbacks are exactly the names other than the hybrid group |
| TlsPolicy.FailClosedIff | quansec/protocols/tls/policy.py:62-81 | a group list is fail-closed exactly when it is the hybrid group, in any case, between separators |
| TlsPolicy.EvaluateMeans | quansec/protocols/tls/policy.py:84-94 | fail-closed means TLS 1.3 only and the hybrid group only; the fallbacks shown are the other names |
| TlsPolicy.ConfiguredIffNoInnerSeparator | quansec/protocols/tls/service.py:611-620 | a fail-closed list counts as configured exactly when, trimmed, it is one name without separators |
| TlsPolicy.AppliedButNotConfigured | quansec/protocols/tls/service.py:611-620 | the hybrid group followed by a colon is fail-closed but not configured |
| TlsPolicy.Compare | quansec/protocols/tls/policy.py:145-179 | drift lists exactly the fields that differ, and in sync means there is a configuration and the five fields agree up to outer white space |
| TlsPolicy.PolicyManager.RecordPolicyState | quansec/protocols/tls/policy.py:184-207 | all rows deactivated, one appended |
| TlsPolicy.PolicyManager.ApplyPolicy | quansec/protocols/tls/policy.py:232-334 | the fail-closed guard, the write, the validation and the record, as the transition function says |
| TlsPolicy.ApplyMeans | quansec/protocols/tls/policy.py:232-334 | refused exactly for a policy that is not fail-closed, naming the groups to blame; otherwise written and recorded, applied exactly when NGINX accepts, reloaded exactly when asked, running, accepted and reloaded |
| TlsPolicy.ApplyKeepsOneActive | quansec/protocols/tls/policy.py:232-334 | for all settings, every call keeps at most one active row, the last, validated and fail-closed; a rejected configuration leaves none and a refused policy changes nothing |
| TlsPolicy.CallsKeepOneActive | quansec/protocols/tls/policy.py:184-334 | the same over every sequence of calls with any settings, and no recorded row is ever lost |
| TlsPolicy.CallsKeepOnDisk | quansec/protocols/tls/policy.py:184-334 | over every sequence of calls the active row is the policy read back from the file |
| TlsPolicy.TrimKeepsGroups | quansec/protocols/tls/policy.py:62-64 | white space at the ends of a group list changes none of its names |
| TlsPolicy.AppliedIsInSync | quansec/protocols/tls/policy.py:97-179 | after a successful apply the re-parsed policy equals the intended one but for outer white space, drift is empty and it is fail-closed |
| TlsStatus.LatestIsMostRecent | quansec/protocols/tls/router.py:106-119 | the result used per probe type is the one with the latest run time |
| TlsStatus.PassedIff | quansec/protocols/tls/router.py:106-119 | a probe type counts as passed exactly when the run of it that no other is later than passed |
| TlsStatus.StoreProbeResults | quansec/protocols/tls/router.py:151-175 | appends every result and counts the passed ones |
| TlsStatus.EnforcedIffBothEverPassed | quansec/protocols/tls/router.py:135-148 | ever enforced means both classical probes passed at some time |
| TlsStatus.WasEnforcedIff | quansec/protocols/tls/router.py:135-148 | ever enforced means each classical probe passed in some recorded run |
| TlsStatus.LatestImpliesEver | quansec/protocols/tls/service.py:622-632 | enforced by the latest results implies ever enforced |
| TlsStatus.EverStays | quansec/protocols/tls/router.py:135-148 | ever enforced stays true as the history grows |
| TlsStatus.NeverMerelyObservedAgain | quansec/protocols/tls/service.py:591-684 | once ever enforced, `hybrid_observed` is never reported again, and degraded exactly when the latest results do not enforce |
| TlsStatus.EnforcedIff | quansec/protocols/tls/service.py:591-684 | `hybrid_enforced` exactly when built, running, configured, both latest classical probes passed and a hybrid session exists |
| TlsStatus.StatusMeans | quansec/protocols/tls/service.py:591-684 | for each of the six statuses, the evidence on which exactly it is reported |
| TlsStatus.AppliedPolicyIsRecognised | quansec/protocols/tls/service.py:611-684 | after a successful apply `classical` is reported exactly when the trimmed group list is not one name without separators |
| Scopes.ExpandAll | quansec/core/scopes.py:108-122 | the loop computes the known scopes and what they imply |
| Scopes.GivesTransitive | quansec/core/scopes.py:47-57 | the implication table is transitive, so one step of expansion is enough |
| Scopes.GivesIff | quansec/core/scopes.py:47-57 | which scope gives which, for every pair |
| Scopes.ExpandIsLeastClosed | quansec/core/scopes.py:108-122 | expansion is the least closed set holding the known scopes |
| Scopes.ExpandIdempotent | quansec/core/scopes.py:108-122 | expanding twice is expanding once |
| Scopes.ExpandMonotone | quansec/core/scopes.py:108-122 | more scopes expand to more |
| Scopes.ClosedIntersection | quansec/core/auth.py:285-287 | closed sets intersect to closed sets |
| Scopes.ScopesForIsClosed | quansec/core/scopes.py:88-105 | the scopes of a role and portal are closed |
| Scopes.AuthorityComesFromRole | quansec/core/scopes.py:73-105 | system:admin exactly for role admin; a portal gives only its own admin scope, and nothing to an unknown role |
| Scopes.ScopesForExactly | quansec/core/scopes.py:73-105 | the scopes of every role and portal: an operator reads every module and administers that of its portal, with probing for TLS; an admin holds all; another role none |
| Scopes.HasAnyIff | quansec/core/scopes.py:125-141 | access exactly when some held scope gives a required one |
| Scopes.ReadDoesNotImplyAdmin | quansec/core/scopes.py:125-141 | reading and probing scopes never satisfy an admin requirement |
| ApiKeys.KeyStore.CreateApiKey | quansec/protocols/auth_api_keys.py:128-230 | the checks in order, each with its refusal, and the key stored when all pass |
| ApiKeys.KeyStore.RevokeApiKey | quansec/protocols/auth_api_keys.py:273-301 | revokes an unrevoked key of the caller's own, else nothing |
| ApiKeys.CreateRefuses | quansec/protocols/auth_api_keys.py:145-189 | for each refusal the requests that get exactly it, and that a refusal changes nothing |
| ApiKeys.CreatedKey | quansec/protocols/auth_api_keys.py:165-205 | a created key is new, the owner's and the only change; without requested scopes it reads what the caller may read |
| ApiKeys.CreatedKeyLives | quansec/protocols/auth_api_keys.py:174-189 | it is accepted up to its expiry: the requested days, 90 for none or zero, or for ever |
| ApiKeys.AcceptedExactly | quansec/core/auth.py:242-302 | a key is accepted exactly when it exists, is not revoked, not expired and has an owner, and carries exactly what its scopes give as far as the owner's role and portal give it now |
| ApiKeys.TokenExactly | quansec/core/auth.py:198-239 | a token carries exactly what it claims as far as the user's role and portal give it now |
| ApiKeys.GrantIsExact | quansec/protocols/auth_api_keys.py:145-172 | a key holds exactly the requested scopes with all they imply, within the caller's |
| ApiKeys.KeyMintsWithin | quansec/protocols/auth_api_keys.py:145-189 | a key minted by a key is within the scopes that key was granted, with the same owner |
| ApiKeys.TokenMintsWithin | quansec/protocols/auth_api_keys.py:145-172 | a key minted with a token is within its claims and the user's present scopes |
| ApiKeys.RevokeMeans | quansec/protocols/auth_api_keys.py:273-301 | revoking touches one unrevoked key of the caller's own and nothing else |
| ApiKeys.EventMeans | quansec/core/auth.py:198-302 | what each event of a history does, written out |
| ApiKeys.StaysSound | quansec/core/auth.py:198-302 | every role change, minting and revocation keeps every key within its minting key |
| ApiKeys.HistoriesStaySound | quansec/core/auth.py:198-302 | the same over every history |
| ApiKeys.ChainNarrows | quansec/core/auth.py:285-287 | along a chain of keys the effective scopes only shrink, evaluated at the same time |
| ApiKeys.KeysNeverExceed | quansec/core/auth.py:242-302 | after any history a key's effective scopes are within its owner's current ones and those of every key it descends from |
| ApiKeys.RevokedForGood | quansec/core/auth.py:255-268 | after its revocation a key is refused in every later history and at every instant, and mints nothing |
| ApiKeys.ExpiredForGood | quansec/core/auth.py:270-283 | from its expiry on a key is refused in every later history, and mints nothing |
| HostAgent.RewriteTouchesOnlyKex | quansec/host_policy_agent.py:100-104 | read back, the file has every KexAlgorithms line replaced, or one appended, and every other line unchanged |
| HostAgent.LastPolicyWinsIff | quansec/host_policy_agent.py:100-104 | rewriting for p after q equals rewriting for p alone exactly when the file has the directive, is empty or ends with a line feed |
| HostAgent.UnclosedNotIdempotent | quansec/host_policy_agent.py:100-104 | otherwise the directive is glued to the last line, and the two results differ in length |
| HostAgent.IsKexIff | quansec/host_policy_agent.py:102-103 | a line is the directive exactly when it is white space, `KexAlgorithms`, anything |
| HostAgent.HasKeyIff | quansec/host_policy_agent.py:72-77 | a line has a key exactly when it is white space, the key, white space, `=`, anything |
| HostAgent.RewriteTouchesTwoLines | quansec/host_policy_agent.py:71-78 | the rewrite changes exactly the first line of each of the two keys |
| HostAgent.RewriteFailsIff | quansec/host_policy_agent.py:71-80 | it succeeds exactly when both keys are there, whatever the policy |
| HostAgent.SettingKeepsLine | quansec/host_policy_agent.py:72-77 | a rewritten line has its key, not the other one, and forgets its old value |
| HostAgent.LastIpsecPolicyWins | quansec/host_policy_agent.py:71-80 | rewriting for p after q equals rewriting for p alone |
| HostAgent.IpsecPolicyWritten | quansec/host_policy_agent.py:26-30 | for each allow-listed policy, the texts written after the two keys, and that no other line changes |
| HostAgent.SshPolicyWritten | quansec/host_policy_agent.py:31-34 | for each allow-listed policy, the directive written, where, and that no other line changes |
| HostAgent.DaemonHost.ApplyIpsec | quansec/host_policy_agent.py:65-91 | applied means the rewritten file is in place and loaded; every other reply leaves the file as it was, whatever the daemon does |
| HostAgent.DaemonHost.ApplySsh | quansec/host_policy_agent.py:94-117 | likewise, with the test of the new file before the reload |
| HostAgent.IpsecHistory | quansec/host_policy_agent.py:43-91 | after any history of calls the file is the first one rewritten for the last policy that went through |
| HostAgent.SshHistory | quansec/host_policy_agent.py:43-117 | the same for SSH, from a file to which the directive can be appended |
| MlKem.KeyExchange.GetPublicKey | quansec/compiled-backup/ml_kem_source/ml_kem_ke.c:21-32 | generates keys once, becomes initiator only if that works, and returns what the object holds |
| MlKem.KeyExchange.SetPublicKey | quansec/compiled-backup/ml_kem_source/ml_kem_ke.c:34-53 | decapsulates as initiator, encapsulates as responder, refuses a wrong length untouched |
| MlKem.WrongLengthIsRefused | quansec/compiled-backup/ml_kem_source/ml_kem_ke.c:34-41 | a value of any length but 1568 is refused by either role and changes nothing |
| MlKem.WorkingCalls | quansec/compiled-backup/ml_kem_source/ml_kem_ke.c:21-53 | a call that works stores exactly what the primitive returned |
| MlKem.FailuresAreForgotten | quansec/compiled-backup/ml_kem_source/ml_kem_ke.c:21-59 | after a failed primitive the buffers stay, the next request is answered from them, and an object whose key generation failed is a responder |
| MlKem.InitiatorKeyIsStable | quansec/compiled-backup/ml_kem_source/ml_kem_ke.c:21-53 | whatever values it is given and however the primitives behave, an initiator publishes the same key for ever |
| MlKem.InitiatorIff | quansec/compiled-backup/ml_kem_source/ml_kem_ke.c:21-53 | an object is an initiator exactly when a key generation that worked came before any value it could take and before any that failed |
| MlKem.SecretsAgree | quansec/compiled-backup/ml_kem_source/ml_kem_ke.c:21-59 | in every run that keeps the roles, whichever calls fail, an initiator that accepted the responder's current ciphertext, by calls that worked, holds the same secret |
| MlKem.SecretsAgreeAfterOneAccept | quansec/compiled-backup/ml_kem_source/ml_kem_ke.c:21-59 | if the responder accepts once, both agree as soon as the initiator has accepted |
| MlKem.RolesMatter | quansec/compiled-backup/ml_kem_source/ml_kem_ke.c:21-59 | a run and a correct KEM where both sides publish first, every call works and the secrets differ |

## Left out

- Tokens: timestamps of revocation and use, user agents and deletion of users; access tokens and passwords.
- Two statements of one token operation interleaved with another operation: the code has no transaction around them.
- Throttle: a window of zero seconds, hashing of bucket keys, and the connection to each store.
- RateLimit.OverflowLocks: stops half a second before the lockout ends, because it holds in every state; `OverflowLocksIff` has the exact condition for the whole lockout.
- Browser: several tabs, lost responses and the retry of the request that got a 401, which is one more refresh caller.
- BrowserClient.MoveConsistent: says nothing about cookies of other clients, which the server treats the same way.
- Factoring: random draws are parameters; the retry loop that draws a candidate prime until one passes; the float square root is taken as the integer one, which it is for the 32-bit candidates drawn.
- Attacks.FactorsAreTheSecretPrimes: decryption with the recovered exponent is not modelled.
- Collector: JSON decoding, a rotation that leaves the file at least as long as the offset, events and the polling loop.
- Collector.RotationKeepsOldRows: completeness holds only between rotations, because the keys repeat after one.
- Statistics: percentages, active windows, TLS 1.3 and resumption counts.
- TLS service: of the directives that are rendered but not read back, proxy headers, timeouts and temporary paths are not reasoned about, and the portal's socket location is left out.
- TLS service: comments, the bodies of locations and the fields of the log format are abridged; ports are text; starting and stopping NGINX, and its version output.
- TlsPolicy.ApplyKeepsOneActive: a crash between the two statements that record an apply is not modelled; it is about completed calls.
- Status: certificate checks, labels and the explanatory texts.
- API keys: names, the protocol field, `last_used`, and hashing of the raw key.
- Host agent: file modes, a key and its `=` on different lines, a disk that fails while the old file is restored, JSON requests on the socket and the status action.
- ML-KEM-768: the object returns public-key length bytes, which is the ciphertext length only for ML-KEM-1024 (section 8 of FIPS 203).
- Readiness scoring, event and metrics formatting, table upserts of the IPsec and SSH services, and the pages of the web interface.
