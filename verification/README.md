# Verification of the gateway's control plane and analysis code

A Dafny 4.11 model of the parts of the MCP gateway whose correctness is not visible from one
function: quota trackers, account lockout, the audit hash chain, the IP dataset, the topology
store, root-cause ranking, the robust anomaly detector, learned behaviour profiles, SCIM PATCH and
two text codecs. Code that changes state is a class or a method with loops, proved against a
specification function; what the code promises is proved about those functions, over every input
and every run. `dafny verify dfyconfig.toml` checks everything.

| file | models |
|---|---|
| `RateLimiter.dfy` | the sliding-window limiter and its runs |
| `TokenBudget.dfy` | the rolling token budget, its waits and its restarts |
| `Lockout.dfy` | the lockout state machine over a store with expiry, with an amortised bound |
| `JsonReader.dfy`, `CanonicalJson.dfy`, `AuditChain.dfy`, `AuditLog.dfy` | a JSON reader, the canonical printer it undoes, the verifier, and recording with restarts as a step system |
| `IpText.dfy`, `IpGrammar.dfy`, `Bits.dfy`, `IpDataset.dfy`, `IpRows.dfy` | address parsing against a grammar, mask arithmetic, the look-up, and what the lines of the file say |
| `Topology.dfy`, `TopologyLaws.dfy` | the event-emitting graph index, its subscribers, and what its events and objects mean |
| `Correlator.dfy`, `RankingLaws.dfy` | the search with one shared set, the scoring, and what each point rewards |
| `Anomaly.dfy`, `AnomalyLaws.dfy` | median, MAD and the detector over exact reals, and its verdict told by the series |
| `Profile.dfy`, `ProfileStore.dfy`, `ProfileLaws.dfy` | learning, reviewing, absorbing and enforcing |
| `ScimPatch.dfy`, `ScimLaws.dfy`, `ScimApply.dfy`, `ScimStore.dfy` | the PATCH operations over values and what each does to a resource, their interpreter over mutable arrays, and the store it feeds |
| `Codecs.dfy` | the command splitter and LogQL escaping |
| `Prelude.dfy`, `Text.dfy` | optional values, stable sorting, arithmetic, string operations |

## Assumptions

- The clock is a nondecreasing integer passed to each call; one call reads it once.
- SHA-256 is any injective function that never yields the genesis value.
- A stretch of code between two awaits is one atomic step, and an append to the audit file writes the
  whole line or nothing.
- Lower case, `String(x)`, `JSON.stringify`, and numbers in other forms than decimal digits belong to the
  host language and are parameters.
- The settings of the lockout are at least one. The environment is read more loosely: a fraction below one
  is floored to zero.
- Map and object iteration follows insertion order where the order can be observed.

## Where the code departs from its own words, or surprises

The model follows the code; each point is a lemma.

- The token budget is called a 24 h cap. Charges are floored to the hour, so an interval is capped
  exactly when it ends no later than 24 h after the start of the hour in which it begins
  (`BudgetBoundExact`): 23 h and 1 ms from anywhere, 24 h only from the full hour.
- The budget's retry time is too early when the clock stands at a whole second, unless the hour that
  began exactly 24 h ago frees enough by itself, because a bucket still counts at the very moment
  its 24 h are over (`RetryAfterExact`, `RetryTooEarly`).
- A ring capacity of zero means no bound, not an empty ring (`ZeroCapKeepsAll`, `ZeroCapNeverShifts`).
- A common upstream cause is meant to outrank its loud symptoms. It does exactly as long as its lead in
  position exceeds what a symptom has over it in other points (`CommonUpstreamRanksFirst`); with n
  services around one cause that is 20 n - 8 points of severity breadth (`StarExact`), and a symptom
  loud enough wins (`LoudSymptomWins`).
- The trend detector is meant to catch slow ramps. Its unit is the spread of the baseline, which
  grows with the ramp: a steady ramp of any slope is missed at 66, 67 and from 69 points on
  (`RampCaughtIffShort`).
- Absorbing a call is said to allow exactly that call. It also allows calls that leave out some of
  its values, mixtures of its values with those already listed, and whatever a suggested or rejected
  rule listed (`AbsorbExactly`, `AbsorbAllowsMixtures`). The comment is true only of a call that was
  allowed before, of a call without any value for a target without a rule, and of a call with a single
  value whose rule permitted nothing under any other key (`AbsorbOnlyCallExact`).
- The lockout speaks of a sliding window, but the window tumbles: it starts with a failure and is
  forgotten as a whole. Without a lock, up to 2 maxFailures - 2 failures fit into one window length,
  or one less if even the shortest lock outlasts the window (`QuietSpanBound`, `QuietSpanReached`).
- The audit log swallows a failed append. The file stays verifiable until the next append succeeds
  without a restart before it; from then on it is never accepted (`FileAcceptedExactly`).
- Whether a change marker counts depends on the order in which the anomalies of one service are listed,
  unless the first listed onset is the earliest (`MarkedExactly`).
- The evaluator's test for a known subject that reaches for a new tool is made among subjects without
  accepted rules and never succeeds; the kind is still right (`KindsWithoutRule`).
- A rule id does not determine its subject and tool: a subject shares its ids with a shorter one
  exactly when it holds `::` or ends with a colon (`AmbiguousExactly`), and two subjects can share
  one exactly when one continues the other with a separator (`SubjectsCollideExactly`).
- A network cell with a slash and nothing after it is not an error: an address so written stands for
  the whole address space (`BareSlashIsEverything`). A second slash is ignored (`SecondSlashIgnored`).
- White space is accepted between the last colon and a dotted IPv4 tail; the grammar in
  `IpGrammar.dfy` admits it, and the standard forms are the ones without.

## Model

| member | source | states |
|---|---|---|
| RateLimiter.IdentityRateLimiter.Check | mcp-server/src/quota/limiter.ts:140-173 | decides by the entries left after dropping the expired front, appends only admitted calls, changes no other identity, and reports count, limit and retry time |
| RateLimiter.IdentityRateLimiter.Inspect | mcp-server/src/quota/limiter.ts:176-182 | counts the entries later than the cutoff; when none lies in the future this is the content of the half-open window ending now |
| RateLimiter.BucketIsHistory | mcp-server/src/quota/limiter.ts:140-164 | over every run of calls, what a later call counts is exactly the filtered history of admitted calls |
| RateLimiter.KeptIsWindow | mcp-server/src/quota/limiter.ts:143-165 | after its last call a run keeps exactly the admitted calls of the window that ends there |
| RateLimiter.WindowBound | mcp-server/src/quota/limiter.ts:140-173 | safety over every run: no half-open window of the configured length holds more than the limit of admitted calls |
| RateLimiter.DeniedExactlyWhenFull | mcp-server/src/quota/limiter.ts:148-162 | a call is denied if and only if its window already holds exactly the limit; it never holds more |
| RateLimiter.RetryExact | mcp-server/src/quota/limiter.ts:150-161 | after a denial the same call passes later if and only if the oldest kept entry has left the window (inclusive), and the announced seconds are the fewest that suffice, from one on |
| RateLimiter.OverrideInForce | mcp-server/src/quota/limiter.ts:128-136 | the override of an identity, when it is at least one or unbounded, is the number at which a run of that identity is denied; otherwise the default is |
| TokenBudgets.TokenBudget.PruneOld | mcp-server/src/quota/token-budget.ts:271-280 | drops the front buckets that start before now minus 24 h, for this identity only |
| TokenBudgets.TokenBudget.UsedInWindow | mcp-server/src/quota/token-budget.ts:282-287 | sums what the pruned list holds |
| TokenBudgets.TokenBudget.RecordTokens | mcp-server/src/quota/token-budget.ts:210-222 | adds a positive amount to the bucket of the current hour or opens it |
| TokenBudgets.TokenBudget.Wait | mcp-server/src/quota/token-budget.ts:295-312 | the first bucket, oldest first, whose departure frees enough; otherwise the newest one |
| TokenBudgets.TokenBudget.Check | mcp-server/src/quota/token-budget.ts:164-191 | verdict, usage, retry time and new buckets of one request, capped or uncapped, with floored and clamped sizes |
| TokenBudgets.BucketsAreCharges | mcp-server/src/quota/token-budget.ts:208-222 | over every run the buckets are the hourly totals of exactly the admitted charges that can still count, and stay hour-aligned and strictly ascending |
| TokenBudgets.UsedIsCharged | mcp-server/src/quota/token-budget.ts:282-287 | what a request finds used is what was charged in hours that started within the last 24 h |
| TokenBudgets.BudgetBoundExact | mcp-server/src/quota/token-budget.ts:164-191 | safety, exactly: every run stays within the limit over a closed interval if and only if the interval ends no later than 24 h after the start of the hour in which it begins |
| TokenBudgets.BudgetHolds | mcp-server/src/quota/token-budget.ts:164-191 | the holding half, for every run |
| TokenBudgets.TwoBudgetsFit | mcp-server/src/quota/token-budget.ts:208-215 | the failing half: two whole budgets are admitted in any interval that ends later |
| TokenBudgets.BudgetBound | mcp-server/src/quota/token-budget.ts:164-191 | so any interval of at most 23 h and 1 ms is capped, and any 24 h interval that starts on the hour |
| TokenBudgets.BudgetBoundTight | mcp-server/src/quota/token-budget.ts:208-215 | no greater length is capped wherever the interval starts |
| TokenBudgets.ChargeExact | mcp-server/src/quota/token-budget.ts:164-171 | a capped request charges its tokens rounded down, an uncapped one exactly what it asks, and neither less than nothing |
| TokenBudgets.UncappedUse | mcp-server/src/quota/token-budget.ts:165-169 | without a cap nothing is refused, and what is used is the sum of everything asked for in the hours of the last 24 h |
| TokenBudgets.DenialChangesNothing | mcp-server/src/quota/token-budget.ts:172-182 | a denied request leaves everything that any later request counts |
| TokenBudgets.AtMost25Buckets | mcp-server/src/quota/token-budget.ts:271-280 | every run from an empty start holds at most 25 strictly ordered buckets |
| TokenBudgets.HeadroomExact | mcp-server/src/quota/token-budget.ts:295-312 | the computed wait is the last moment at which too little has dropped off, and the reported amount is what has dropped off right after it |
| TokenBudgets.WaitIsExact | mcp-server/src/quota/token-budget.ts:170-191 | with nothing else charged, a denied request within the limit is admitted at a later time if and only if that time is strictly after now plus the wait |
| TokenBudgets.RetryAfterExact | mcp-server/src/quota/token-budget.ts:175-181 | retrying after the announced seconds succeeds if and only if the clock does not stand at a whole second or the hour that began exactly 24 h ago frees enough by itself |
| TokenBudgets.RetryTooEarly | mcp-server/src/quota/token-budget.ts:175-181 | a reachable case where the announced retry is refused |
| TokenBudgets.OversizedHeadroom | mcp-server/src/quota/token-budget.ts:306-311 | when all that is held is too little, the wait ends with the last bucket and all of it is reported as freed |
| TokenBudgets.OversizedAlwaysRefused | mcp-server/src/quota/token-budget.ts:306-311 | a request above the limit is refused in every reachable state at every time |
| TokenBudgets.RestoredIsPruned | mcp-server/src/quota/token-budget.ts:141-153 | the type, sign and age filters of the restart keep of a stored list what pruning keeps |
| TokenBudgets.BootstrapExact | mcp-server/src/quota/token-budget.ts:139-153 | of any stored list a restart takes exactly the cells with a positive amount that are young enough, by start |
| TokenBudgets.RestartInvisible | mcp-server/src/quota/token-budget.ts:113-157 | a restart from the snapshot of any reachable state changes no later verdict and no later bucket |
| Lockout.AccountLockout.Check | mcp-server/src/auth/lockout.ts:121-129 | reports the live lock or the attempts left and changes nothing |
| Lockout.AccountLockout.RecordFailure | mcp-server/src/auth/lockout.ts:142-174 | stores the next streak or lock for this user only, writes nothing under a live lock, and answers what an immediate look-up answers |
| Lockout.AccountLockout.RecordSuccess | mcp-server/src/auth/lockout.ts:177-179 | forgets this user and no other |
| Lockout.StepInv | mcp-server/src/auth/lockout.ts:142-174 | every event keeps the entry consistent with its configuration, its deadline and its store expiry |
| Lockout.RunInv | mcp-server/src/auth/lockout.ts:121-179 | the same over every run |
| Lockout.ExpiredIsOver | mcp-server/src/auth/lockout.ts:101-103 | an entry that the store has expired has no open window and no live lock |
| Lockout.LiveLockIsFixed | mcp-server/src/auth/lockout.ts:147-152 | failures under a live lock neither lengthen, shorten nor lose it |
| Lockout.LevelCountsLocks | mcp-server/src/auth/lockout.ts:160-163 | while nothing is forgotten the lock level is the number of locks imposed |
| Lockout.NextLockDoubles | mcp-server/src/auth/lockout.ts:110-114 | after k locks the next one lasts base times 2 to the k, capped |
| Lockout.CreditOnCounted | mcp-server/src/auth/lockout.ts:154-172 | each counted failure spends one unit of an amortised credit |
| Lockout.CreditOnSuccess | mcp-server/src/auth/lockout.ts:176-179 | a success buys back at most one streak |
| Lockout.CreditCovers | mcp-server/src/auth/lockout.ts:142-179 | over every run counted failures never exceed the credit at its start plus what successes buy |
| Lockout.FailureBound | mcp-server/src/auth/lockout.ts:142-179 | any closed span of d seconds of any run counts at most maxFailures times (2 + successes + d / shortest lock + d / (window + 1)) failures for one user |
| Lockout.AttemptsLeftExact | mcp-server/src/auth/lockout.ts:121-135 | the attempts left are exact in every reachable state: one failure less imposes no lock, that many impose one |
| Lockout.RetryAfterLockExact | mcp-server/src/auth/lockout.ts:124-125 | a lock announces the seconds during which failures are not counted, and not one more |
| Lockout.KeptExactly | mcp-server/src/auth/lockout.ts:101-103 | what a counted failure wrote is kept for the longer of window and longest lock and a minute more |
| Lockout.QuietSpanBound | mcp-server/src/auth/lockout.ts:131-173 | in any run, a closed span no longer than the window without a lock or a success counts for one user at most 2 maxFailures - 2 failures, one less if even the shortest lock outlasts the window, and none if maxFailures is one |
| Lockout.QuietSpanReached | mcp-server/src/auth/lockout.ts:131-173 | for all settings some run counts exactly that many |
| CanonicalJson.CanonIsPrintNorm | mcp-server/src/audit/log.ts:221-232 | the canonical text is the plain text of a key-sorted normal form without missing fields |
| CanonicalJson.KeyLeExact | mcp-server/src/audit/log.ts:226 | the order of keys: a proper prefix comes first, else the smaller character at the first difference |
| CanonicalJson.ReadsBack | mcp-server/src/audit/log.ts:221-232 | a reader with its own escape table, decimal value and grammar reads every printed value back and stops right behind it |
| CanonicalJson.CanonReadsBack | mcp-server/src/audit/log.ts:217-232 | the canonical text is read back, to its end, as an equivalent value in which nothing is missing and the keys of every object ascend |
| CanonicalJson.ReadValue | mcp-server/src/audit/log.ts:221-232 | equal printable texts come from equal values and leave equal remainders: the printed form can be read in only one way |
| CanonicalJson.NormExact | mcp-server/src/audit/log.ts:217-226 | two values have one normal form if and only if they are equal up to key order, missing fields, gaps and non-finite numbers |
| CanonicalJson.CanonExact | mcp-server/src/audit/log.ts:221-232 | two valid values are printed identically if and only if they are equivalent in that sense |
| AuditChain.VerifyChain | mcp-server/src/audit/log.ts:236-251 | accepts exactly the chains and otherwise names the first entry that does not link, and whether its predecessor or its hash is wrong |
| AuditChain.SameHashSameEntry | mcp-server/src/audit/log.ts:208-215 | with an injective digest, two linking entries with one hash are the same entry after the same predecessor hash |
| AuditChain.SameTipSameChain | mcp-server/src/audit/log.ts:234-251 | tamper evidence: two accepted chains with the same tip have the same length and the same entry at every position |
| AuditChain.HashesDistinct | mcp-server/src/audit/log.ts:236-249 | no two prefixes of an accepted chain have the same tip |
| AuditChain.LostEntryDetected | mcp-server/src/audit/log.ts:132-137 | without entry i the verifier stops exactly at the entry that followed it; only a loss at the end goes unnoticed |
| AuditChain.EditDetected | mcp-server/src/audit/log.ts:236-249 | an edit that leaves both hashes is found at the entry itself as a hash mismatch, unless it changes only the order of keys or missing fields |
| AuditChain.OnlyEndsCanGo | mcp-server/src/audit/log.ts:132-137 | removing any number of entries from a chain leaves an accepted one if and only if all of them are at the end |
| AuditChain.VerdictUnique | mcp-server/src/audit/log.ts:236-251 | there is one possible verdict for every list |
| AuditLogs.AuditLog.Bootstrap | mcp-server/src/audit/log.ts:88-113 | replays the lines once: highest number, last hash, bounded ring of whatever was parsed, malformed and null lines skipped |
| AuditLogs.AuditLog.Record | mcp-server/src/audit/log.ts:119-155 | links a new entry to the last hash with the next number, pushes it on the ring and queues it for the file |
| AuditLogs.CanonOfReread | mcp-server/src/audit/log.ts:217-220 | a fresh entry and its round trip through JSON text have the same canonical text |
| AuditLogs.LineReadBack | mcp-server/src/audit/log.ts:132-134 | parsing the line of a value, fields in insertion order, yields exactly what a restart finds |
| AuditLogs.NewEntryHolds | mcp-server/src/audit/log.ts:121-126 | a new entry holds the time, the next number, the last hash, its own digest, and every field it was given |
| AuditLogs.ReplayHighest | mcp-server/src/audit/log.ts:103 | after any file the number is the highest integer that a line gives, or zero |
| AuditLogs.ReplayLastHash | mcp-server/src/audit/log.ts:104 | and the hash is that of the last line that gives one |
| AuditLogs.LinksReread | mcp-server/src/audit/log.ts:132-137 | an entry read back from its line still links |
| AuditLogs.ReplayMirrors | mcp-server/src/audit/log.ts:98-109 | replaying a numbered chain restores the memory that mirrors it |
| AuditLogs.StepRecord | mcp-server/src/audit/log.ts:119-138 | recording keeps memory, queue and file in step |
| AuditLogs.StepAppend | mcp-server/src/audit/log.ts:129-137 | so does an append while none was lost |
| AuditLogs.StepLost | mcp-server/src/audit/log.ts:133-137 | an append that fails leaves a file that is still in step as long as it does not grow |
| AuditLogs.StepRestart | mcp-server/src/audit/log.ts:88-113 | a restart, which loses the queue and rereads the file, brings all three back in step |
| AuditLogs.RunInv | mcp-server/src/audit/log.ts:88-155 | every interleaving of recordings, appends, lost appends and restarts keeps them so, until an append follows a lost one without a restart between |
| AuditLogs.FileAlwaysVerifies | mcp-server/src/audit/log.ts:88-155 | when no append fails, in every reachable state and for every capacity the verifier accepts the file, its numbers are 1, 2, 3 and so on, and the ring holds exactly the last cap entries written or queued, or all of them for a capacity of zero |
| AuditLogs.StepSpoils | mcp-server/src/audit/log.ts:132-137 | an append after a lost one breaks the chain |
| AuditLogs.SpoiledForever | mcp-server/src/audit/log.ts:88-155 | and no later event, restarts included, repairs it |
| AuditLogs.FileAcceptedExactly | mcp-server/src/audit/log.ts:88-155 | when appends can fail, the file is accepted if and only if no append has succeeded after a lost one without a restart between; until then its numbers are 1, 2, 3 and so on and the ring holds what it keeps of the remembered entries |
| AuditLogs.PushIsKept | mcp-server/src/audit/log.ts:127-128 | one push keeps the ring at what its capacity allows of the longer list |
| AuditLogs.ZeroCapKeepsAll | mcp-server/src/audit/log.ts:105-106 | replaying any file with a capacity of zero shifts nothing out |
| AuditLogs.ZeroCapNeverShifts | mcp-server/src/audit/log.ts:127-128 | nor does any run whose file is still in step: the ring holds one value for each number given out |
| Topology.TopologyStore.EmitRemoved | mcp-server/src/connectors/kubernetes-graph.ts:273 | one event, in order, for each previous edge whose key is gone |
| Topology.TopologyStore.EmitAdded | mcp-server/src/connectors/kubernetes-graph.ts:274 | one event, in order, for each new edge whose key was not there |
| Topology.TopologyStore.UpsertResource | mcp-server/src/connectors/kubernetes-graph.ts:261-275 | the new graph, the exact events in order and one revision per event |
| Topology.TopologyStore.RemoveResource | mcp-server/src/connectors/kubernetes-graph.ts:277-285 | the same for a removal; an unknown id changes nothing |
| Topology.FollowsOperation | mcp-server/src/connectors/kubernetes-graph.ts:261-285 | applying the events of one operation to a copy of the graph gives a copy of the new graph |
| Topology.FollowsDiff | mcp-server/src/connectors/kubernetes-graph.ts:270-274 | removing and adding what the diff reports replaces one key set by the other |
| Topology.AnchoredThroughout | mcp-server/src/connectors/kubernetes-graph.ts:261-285 | between any two events of one operation no edge is known whose source is absent |
| Topology.SubscriberFollows | mcp-server/src/connectors/kubernetes-graph.ts:245-304 | a snapshot at any point followed by every later event is always the store, resources and edge keys |
| Topology.SubscriberNeverDangles | mcp-server/src/connectors/kubernetes-graph.ts:245-285 | at every point of every event stream each known edge leaves a known resource |
| Topology.EqualRevisionsEqualGraphs | mcp-server/src/connectors/kubernetes-graph.ts:250-304 | equal revisions of one store mean equal graphs |
| TopologyLaws.EventsTell | mcp-server/src/connectors/kubernetes-graph.ts:261-285 | every event tells what its operation did: added and updated by whether the resource was there, removed with what was there, edge keys that were not or no longer there |
| TopologyLaws.EdgeKeyExact | mcp-server/src/connectors/kubernetes-graph.ts:307-309 | two edges have one key if and only if they join the same resources by the same relation |
| TopologyLaws.IdsExact | mcp-server/src/connectors/kubernetes-graph.ts:45-51 | two objects have one id if and only if they are of one kind with one name in one namespace |
| TopologyLaws.IdsSpelled | mcp-server/src/connectors/kubernetes-graph.ts:45-51 | the ids of pods and nodes as text |
| TopologyLaws.WorkloadIdsSpelled | mcp-server/src/connectors/kubernetes-graph.ts:45-51 | the ids of deployments, replica sets and namespaces as text |
| TopologyLaws.EdgesExact | mcp-server/src/connectors/kubernetes-graph.ts:152-221 | exactly which edges an object gives: its namespace, its node when scheduled, its owners of known kinds |
| TopologyLaws.ResourceExact | mcp-server/src/connectors/kubernetes-graph.ts:55-137 | which objects give a resource, and each of its fields and attributes |
| Topology.BuildersAreProper | mcp-server/src/connectors/kubernetes-graph.ts:45-221 | the edges of each builder leave the resource that the same object builds, under ids free of the key separator |
| IpText.ParseIpv4 | mcp-server/src/enrich/ip-dataset.ts:45-56 | accepts exactly four groups of one to three digits up to 255 and yields their base-256 number |
| IpText.Ipv4RoundTrip | mcp-server/src/enrich/ip-dataset.ts:45-56 | any four octet texts between dots, with outer white space, read as their number |
| IpText.DottedDecimal | mcp-server/src/enrich/ip-dataset.ts:45-56 | four printed octets read as a base-256 number, the first the most significant |
| IpText.ParseGroups | mcp-server/src/enrich/ip-dataset.ts:90-99 | reads hexadecimal groups between colons, or fails |
| IpText.ReplaceQuad | mcp-server/src/enrich/ip-dataset.ts:78-86 | rewrites a dotted tail as two hexadecimal groups, or fails |
| IpText.ParseHextets | mcp-server/src/enrich/ip-dataset.ts:88-114 | exactly eight groups, with at most one gap that stands for at least one group |
| IpText.ParseIpv6 | mcp-server/src/enrich/ip-dataset.ts:75-119 | the whole parser, loop by loop |
| IpText.HexRoundTrip | mcp-server/src/enrich/ip-dataset.ts:83-85 | a printed hexadecimal group reads back as its value |
| IpText.ShiftIn | mcp-server/src/enrich/ip-dataset.ts:116-117 | shifting by sixteen and or-ing in a group appends a base-65536 digit |
| IpText.HornerBound | mcp-server/src/enrich/ip-dataset.ts:116-118 | eight groups stay below 2^128 |
| IpText.HornerDigit | mcp-server/src/enrich/ip-dataset.ts:116-118 | each group is a base-65536 digit of the number, the first the most significant |
| IpText.HornerInjective | mcp-server/src/enrich/ip-dataset.ts:116-118 | different groups give different numbers |
| IpGrammar.Ipv6ReadsEveryForm | mcp-server/src/enrich/ip-dataset.ts:75-119 | every text of the grammar is read as the address it shows |
| IpGrammar.Ipv6UndoesRfcForms | mcp-server/src/enrich/ip-dataset.ts:73-119 | the three forms of section 2.2 of RFC 4291 (full, one compressed run, dotted tail), with outer white space, are undone |
| IpGrammar.Ipv6ReadsOnlyForms | mcp-server/src/enrich/ip-dataset.ts:75-119 | whatever is read is a text of the grammar |
| IpGrammar.Ipv6Exact | mcp-server/src/enrich/ip-dataset.ts:75-119 | a text reads as a number if and only if it spells, in the grammar, the address with that number |
| IpGrammar.Ipv6Below | mcp-server/src/enrich/ip-dataset.ts:116-118 | every accepted text gives a value below 2^128 |
| IpGrammar.SameNumberSameAddress | mcp-server/src/enrich/ip-dataset.ts:75-119 | two texts read as one number only if they show one address |
| Bits.AndLowMask | mcp-server/src/enrich/ip-dataset.ts:132 | masking with k low ones is the remainder modulo 2^k |
| Bits.AndHighMask | mcp-server/src/enrich/ip-dataset.ts:67-68 | masking with ones above h zeros clears the low h bits |
| Bits.OrDisjoint | mcp-server/src/enrich/ip-dataset.ts:117 | or of numbers without a common bit is their sum |
| IpDataset.BlockIsPrefix | mcp-server/src/enrich/ip-dataset.ts:63-70 | a block is exactly the set of addresses that share its prefix (section 3.1 of RFC 4632) |
| IpDataset.Range32IsBlock | mcp-server/src/enrich/ip-dataset.ts:65-70 | the signed and unsigned 32-bit shifts yield exactly the block for every prefix from 0 to 32 |
| IpDataset.Range128IsBlock | mcp-server/src/enrich/ip-dataset.ts:128-133 | the 128-bit arithmetic yields exactly the block for every prefix from 0 to 128 |
| IpDataset.BlocksNest | mcp-server/src/enrich/ip-dataset.ts:188-199 | two blocks with a common address nest, the longer prefix inside |
| IpDataset.ParseCidr | mcp-server/src/enrich/ip-dataset.ts:59-71 | whatever is accepted, bare addresses included, is the block of some IPv4 address |
| IpDataset.ParseCidr6 | mcp-server/src/enrich/ip-dataset.ts:122-134 | the same for IPv6 |
| IpDataset.CidrReads | mcp-server/src/enrich/ip-dataset.ts:59-64 | how every cell of an address text, a slash and a prefix text is read, and every cell without a slash, in both families |
| IpDataset.PrefixReads | mcp-server/src/enrich/ip-dataset.ts:60-62 | a prefix text in digits, with white space around them, is read as its number |
| IpDataset.CidrIsBlock | mcp-server/src/enrich/ip-dataset.ts:59-71 | an address, a slash and a printed number are read as the block of that prefix, if the number is at most the width of the family, and not at all otherwise |
| IpDataset.SecondSlashIgnored | mcp-server/src/enrich/ip-dataset.ts:60-64 | a second slash and whatever follows it change nothing |
| IpDataset.BareSlashIsEverything | mcp-server/src/enrich/ip-dataset.ts:60-64 | an address with a slash and nothing after it is the whole address space of its family |
| IpDataset.RowOf | mcp-server/src/enrich/ip-dataset.ts:157-178 | a data line that is accepted holds a block of its own family |
| IpRows.LineReads | mcp-server/src/enrich/ip-dataset.ts:156-179 | a line of clean cells that is no comment and no header is a row of the family of its network cell, or malformed, with each field under the column of its name |
| IpRows.HeaderIgnored | mcp-server/src/enrich/ip-dataset.ts:159-160 | a line whose first cell is the header word, in any case, is passed over |
| IpRows.BlankIgnored | mcp-server/src/enrich/ip-dataset.ts:157-158 | so is a blank line |
| IpRows.CommentIgnored | mcp-server/src/enrich/ip-dataset.ts:157-158 | and a line that begins with a number sign behind white space |
| IpRows.ReturnIgnored | mcp-server/src/enrich/ip-dataset.ts:156-157 | a carriage return at the end of a line changes nothing |
| IpRows.OneLineLookup | mcp-server/src/enrich/ip-dataset.ts:152-211 | a look-up in a file of one line answers with the fields of its columns exactly for the addresses inside its network |
| IpDataset.Scan | mcp-server/src/enrich/ip-dataset.ts:191-199 | the loop with its early exit finds what a complete scan finds |
| IpDataset.BestOfSorted | mcp-server/src/enrich/ip-dataset.ts:144-147 | sorting the rows never changes the answer |
| IpDataset.BestIsLongestMatch | mcp-server/src/enrich/ip-dataset.ts:191-199 | the answer is the longest matching prefix, the earliest row winning ties, or nothing if no row matches |
| IpDataset.ReadRows | mcp-server/src/enrich/ip-dataset.ts:152-181 | the rows of each family in file order and the number of skipped lines |
| IpDataset.RowsConserved | mcp-server/src/enrich/ip-dataset.ts:156-179 | every data line is one row of one family or counted as skipped |
| IpDataset.IpEnrichmentDataset.constructor | mcp-server/src/enrich/ip-dataset.ts:143-150 | sorted rows of both families, sizes and the skip count of the text |
| IpDataset.IpEnrichmentDataset.Lookup | mcp-server/src/enrich/ip-dataset.ts:184-211 | answers for every text as an unsorted complete scan of the file would |
| Correlator.BuildDeps | mcp-server/src/analysis/correlator.ts:114-118 | the adjacency map holds exactly the edges |
| Correlator.DependsOn | mcp-server/src/analysis/correlator.ts:119-127 | terminates on every graph, cycles included, and from an empty set answers true if and only if a path of at least one edge exists |
| Correlator.StepThenPath | mcp-server/src/analysis/correlator.ts:125 | an edge followed by a path is a path |
| Correlator.ClosedMeansUnreachable | mcp-server/src/analysis/correlator.ts:119-127 | a set closed under the edges that misses the target proves it unreachable |
| Correlator.DistinctServices | mcp-server/src/analysis/correlator.ts:107 | the anomalous services, once each, in order of first appearance |
| Correlator.Neighbours | mcp-server/src/analysis/correlator.ts:141-153 | dependents and upstreams by reachability |
| Correlator.MarkedExactly | mcp-server/src/analysis/correlator.ts:179-190 | the marker points are those of the earliest onset, whatever the markers, if and only if the first listed onset of the service is its earliest |
| Correlator.SumBreadth | mcp-server/src/analysis/correlator.ts:193 | the summed severity weights of one service |
| Correlator.ScoreService | mcp-server/src/analysis/correlator.ts:134-194 | position, onset, marker and breadth points add up to the score |
| Correlator.RankRootCause | mcp-server/src/analysis/correlator.ts:102-214 | the ranked candidates with the confidence of the first |
| RankingLaws.OnsetPoints | mcp-server/src/analysis/correlator.ts:153-175 | four points for starting less than half a second after the first onset of all, one for less than 60.5 s, none later or without an onset |
| RankingLaws.EarlierNeverLess | mcp-server/src/analysis/correlator.ts:161-170 | a service that starts no later never has fewer onset points |
| RankingLaws.LateStarterRanksBehind | mcp-server/src/analysis/correlator.ts:161-199 | of two services equal in position, markers and breadth, the one that starts first of all ranks before one that starts half a second later |
| RankingLaws.MarkerAddsFour | mcp-server/src/analysis/correlator.ts:179-184 | one more change adds four points exactly when none counted and it lies at most 15 minutes before the first listed onset, or there is none |
| RankingLaws.AnomalyAddsWeight | mcp-server/src/analysis/correlator.ts:192-194 | one more anomaly without an onset adds a quarter of its weight 1, 2 or 3 to its service alone |
| RankingLaws.ListedByFirst | mcp-server/src/analysis/correlator.ts:107 | services are listed by their first anomaly |
| RankingLaws.RankedByScore | mcp-server/src/analysis/correlator.ts:199 | the whole ranking is by score, and by listing where scores are equal |
| RankingLaws.ConfidenceOfLead | mcp-server/src/analysis/correlator.ts:202-204 | the first is high from a lead of 5, medium from 2, all others are low; a single service is measured by its score |
| Correlator.PositionIsTwicePairs | mcp-server/src/analysis/correlator.ts:139-157 | the +5 and -3 terms count the same pairs, so position points add up to twice the number of dependency pairs |
| Correlator.PositionGap | mcp-server/src/analysis/correlator.ts:139-157 | a service that all others reach and that reaches none is 8 position points ahead of each |
| Correlator.TopOfSorted | mcp-server/src/analysis/correlator.ts:199-202 | the stable sort puts first the one candidate that beats those before it and is not beaten by those after it |
| Correlator.RanksFirstExact | mcp-server/src/analysis/correlator.ts:134-204 | for any graph, onsets and markers: a service ranks first if and only if its lead in position over every other exceeds what the other has over it in onset, change and breadth points, or equals it with the other listed later |
| Correlator.HighConfidenceExact | mcp-server/src/analysis/correlator.ts:201-204 | the confidence is high if and only if every other service trails by 5 points or more |
| Correlator.CommonUpstreamRanksFirst | mcp-server/src/analysis/correlator.ts:134-204 | the same for a common upstream, whose lead is never below 8 points: no other within 8 points of evidence and breadth outranks it, and within 3 its confidence is high |
| Correlator.BreadthThresholds | mcp-server/src/analysis/correlator.ts:192-204 | without onsets and markers the exact condition in points of breadth is four times the lead, never below 32, and 12 for high confidence |
| Correlator.StarExact | mcp-server/src/analysis/correlator.ts:139-204 | with n services of which all depend on one and on no other, the cause ranks first if and only if no symptom exceeds its breadth by 20 n - 8 points, ties going to the one listed earlier |
| Correlator.TwoServicesExact | mcp-server/src/analysis/correlator.ts:192-204 | with two services the threshold is 32 points |
| Correlator.LoudSymptomWins | mcp-server/src/analysis/correlator.ts:192-204 | a concrete symptom that outranks its cause |
| Anomaly.MedianSplits | mcp-server/src/analysis/anomaly.ts:58-63 | at most half of the values lie below the median and at most half above |
| Anomaly.SortedAt | mcp-server/src/analysis/anomaly.ts:58-63 | a value with few enough values below and above stands at a given place in order |
| Anomaly.MedianByCount | mcp-server/src/analysis/anomaly.ts:58-63 | for an odd number of values only the median has half of them on each side |
| Anomaly.MedianResists | mcp-server/src/analysis/anomaly.ts:58-63 | with fewer than half of the positions replaced the median stays between two values that were not |
| Anomaly.MedianRescaled | mcp-server/src/analysis/anomaly.ts:58-63 | the median moves with the unit and the origin |
| Anomaly.MadRescaled | mcp-server/src/analysis/anomaly.ts:66-71 | the MAD feels only the factor |
| Anomaly.CountRises | mcp-server/src/analysis/anomaly.ts:162-163 | counts the rising steps |
| Anomaly.DetectRobustAnomaly | mcp-server/src/analysis/anomaly.ts:126-219 | the verdict for every series and every setting, warm-up included |
| Anomaly.UnitInvariant | mcp-server/src/analysis/anomaly.ts:126-219 | over a baseline that varies, verdict, method, score and direction are unchanged by any positive factor and any shift of all values |
| Anomaly.BaselineResists | mcp-server/src/analysis/anomaly.ts:139-149 | replacing fewer than half of the baseline points leaves the reported baseline between two untouched ones |
| AnomalyLaws.DetectorExact | mcp-server/src/analysis/anomaly.ts:126-219 | when a series alarms and by which test, in its own units: by level if and only if the recent median and each of the last dwell points lie far from the baseline, above it where less is better; else by trend if and only if, for saturation and latency, seven of ten steps rise and the recent median is two units up |
| AnomalyLaws.ReportExact | mcp-server/src/analysis/anomaly.ts:139-160 | the reported values are the two medians, the score their difference in units, the direction its sign |
| AnomalyLaws.NeverForADrop | mcp-server/src/analysis/anomaly.ts:147-148 | for latency, error rate and saturation a drop never alarms |
| Anomaly.HitNeedsMajority | mcp-server/src/analysis/anomaly.ts:150-174 | a robust-z hit has half of the recent window, rounded up, beyond the threshold on one side, and every one of the last dwell points beyond it |
| Anomaly.SustainedShiftFires | mcp-server/src/analysis/anomaly.ts:150-174 | when all recent points are beyond the threshold the robust-z test fires |
| Anomaly.RampDeviations | mcp-server/src/analysis/anomaly.ts:66-71 | the median deviation of a ramp of any length |
| Anomaly.RampCaughtIffShort | mcp-server/src/analysis/anomaly.ts:160-171 | a steady ramp of any slope and any number of points, watched as saturation or latency under the default settings, is caught if and only if it has 15 to 65 or 68 points |
| Profiles.LearnConstraints | mcp-server/src/inspect/profile.ts:55-71 | the sorted distinct nonempty values of each dimension and the buckets of each argument key |
| Profiles.LearnedPermits | mcp-server/src/inspect/profile.ts:57-60 | a learned dimension permits a value if and only if it is nonempty and was seen |
| Profiles.LearnedPermitsArg | mcp-server/src/inspect/profile.ts:61-69 | a learned argument permits a bucket if and only if it was seen |
| ProfileLaws.LearnedAscend | mcp-server/src/inspect/profile.ts:50-71 | learned values are listed once each, in ascending order |
| Profiles.GroupsAreFilters | mcp-server/src/inspect/profile.ts:83-89 | each group holds the observations of its id, in order |
| Profiles.DeriveProfile | mcp-server/src/inspect/profile.ts:78-109 | the merged rule list, in insertion order |
| Profiles.ProvenanceSpans | mcp-server/src/inspect/profile.ts:94-105 | the provenance counts the observations and spans their times |
| ProfileLaws.DerivedOrder | mcp-server/src/inspect/profile.ts:78-109 | rules keep their places, and rules for new targets follow in the order of first observation |
| Profiles.DerivedRules | mcp-server/src/inspect/profile.ts:91-108 | under every id: a human decision, else fresh traffic, else what was there; ids stay unique and the accepted rules stay as they are |
| Profiles.DeriveInvisible | mcp-server/src/inspect/profile.ts:73-109 | deriving never changes the evaluation of any call |
| Profiles.DeriveKeepsDecisions | mcp-server/src/inspect/profile.ts:91-93 | accepted and rejected rules come through unchanged |
| Profiles.DeriveIdempotent | mcp-server/src/inspect/profile.ts:9-11 | deriving again from the same traffic changes nothing |
| Profiles.EvaluateCall | mcp-server/src/inspect/profile.ts:126-153 | verdict, kind and rule for every call and every rule list |
| Profiles.AllowedByFirst | mcp-server/src/inspect/profile.ts:126-153 | a call is allowed if and only if the first accepted rule for its subject and tool covers it |
| Profiles.KindsWithoutRule | mcp-server/src/inspect/profile.ts:127-136 | a new principal if and only if no accepted rule is for the subject, a new tool if and only if one is but none for the tool: the test for a known subject never succeeds |
| ProfileLaws.KindsWithRule | mcp-server/src/inspect/profile.ts:137-152 | under a rule in force: a new resource if and only if a dimension is not permitted, an argument out of range if and only if all dimensions are and an argument is not, and the rule is named |
| Profiles.LearnedExactly | mcp-server/src/inspect/profile.ts:55-153 | after deriving and accepting everything a call is allowed if and only if each of its dimensions is nonempty and was seen, and each of its buckets was seen, for that subject and tool |
| Profiles.ObservedAllowed | mcp-server/src/inspect/profile.ts:55-153 | an observed call is allowed if and only if none of its dimensions is the empty text |
| Profiles.RecordedAllowed | mcp-server/src/inspect/signature.ts:147-155 | recorded calls carry trimmed nonempty dimensions only, so each is allowed by its own profile |
| Profiles.RuleIdInjective | mcp-server/src/inspect/profile.ts:42-45 | subjects without the separator, and without a colon at the end, never share a rule id |
| Profiles.AmbiguousExactly | mcp-server/src/inspect/profile.ts:42-45 | a subject, with any tool, shares its id with a shorter one if and only if it holds the separator or ends with a colon |
| Profiles.SubjectsCollideExactly | mcp-server/src/inspect/profile.ts:42-45 | two different subjects can share a rule id if and only if one is the other followed by two colons and anything, or by one colon at its end |
| Profiles.RuleIdsCollide | mcp-server/src/inspect/profile.ts:43-45 | wherever a separator begins in a subject, the subject before it can have the same id |
| ProfileStores.ProfileStore.Derive | mcp-server/src/inspect/profile-store.ts:78-82 | stores and returns the derived list |
| ProfileStores.ProfileStore.SetStatus | mcp-server/src/inspect/profile-store.ts:85-91 | changes the status of the first rule with the id, or nothing |
| ProfileStores.ProfileStore.Update | mcp-server/src/inspect/profile-store.ts:94-101 | replaces constraints and a nonempty subject, or nothing |
| ProfileStores.ProfileStore.Remove | mcp-server/src/inspect/profile-store.ts:103-111 | drops the rules with the id and says whether there was one |
| ProfileStores.ProfileStore.Absorb | mcp-server/src/inspect/profile-store.ts:120-147 | widens, accepts or creates the rule of the call and touches no other |
| ProfileStores.Widen | mcp-server/src/inspect/profile-store.ts:131-144 | adds the values of the call to the lists of the rule, in order |
| ProfileLaws.AddToAscends | mcp-server/src/inspect/profile-store.ts:131-136 | a value is added once, where the order has it |
| ProfileLaws.AbsorbAscends | mcp-server/src/inspect/profile-store.ts:131-144 | so the lists of an absorbed rule ascend when those of the rule did |
| ProfileLaws.StatusReads | mcp-server/src/inspect/profile-store.ts:85-91 | a review changes the status of the rule with the id and nothing else, and no place |
| ProfileLaws.PatchReads | mcp-server/src/inspect/profile-store.ts:94-101 | an edit replaces what it gives, an empty subject being none, and keeps the rest |
| ProfileLaws.AbsorbReads | mcp-server/src/inspect/profile-store.ts:120-130 | absorbing accepts the rule of the target, notes the time and keeps its subject, tool and first sight; a new rule begins with that call; all others stay in place |
| ProfileStores.AbsorbExactly | mcp-server/src/inspect/profile-store.ts:113-147 | exactly what is allowed afterwards: for the target, every mixture of the values of the call with those the rule listed, whatever its status was; elsewhere what was allowed before |
| ProfileStores.AbsorbOnlyCallExact | mcp-server/src/inspect/profile-store.ts:113-147 | the comment holds, no other call becomes allowed, if and only if the call was allowed before, or the rule of its target permitted nothing under any other key and the call has exactly as many values as the target had rules: one if there was a rule, none if not |
| ProfileStores.AbsorbAllows | mcp-server/src/inspect/profile-store.ts:113-147 | the absorbed call is allowed |
| ProfileStores.AbsorbKeepsAllowed | mcp-server/src/inspect/profile-store.ts:113-147 | no allowed call becomes a deviation |
| ProfileStores.AbsorbAllowsMixtures | mcp-server/src/inspect/profile-store.ts:116-117 | a call that was never seen can become allowed, against the comment |
| ProfileStores.StepSound | mcp-server/src/inspect/profile-store.ts:78-147 | every operation keeps ids unique and tied to subject and tool |
| ProfileStores.RunSound | mcp-server/src/inspect/profile-store.ts:78-147 | so does every run |
| ProfileStores.RunKeepsAllowed | mcp-server/src/inspect/profile-store.ts:78-147 | over any run of deriving and absorbing an allowed call stays allowed |
| ProfileStores.AcceptEachIsAll | mcp-server/src/inspect/profile-store.ts:85-91 | accepting the rules one by one accepts all of them |
| ProfileStores.LearnedStaysAllowed | mcp-server/src/inspect/profile-store.ts:78-151 | learn, accept, go on learning and absorbing: an observed call without an empty dimension is never again a deviation |
| ProfileStores.RecordedStaysAllowed | mcp-server/src/inspect/profile-store.ts:78-151 | so no recorded call ever is |
| ScimPatch.FilterPathExact | mcp-server/src/scim/routes.ts:286-295 | a path is read with a filter if and only if it spells an allow-listed attribute, a bracket, a sub-attribute, eq and a quoted value, with white space where the grammar has it |
| ScimPatch.WordCharacters | mcp-server/src/scim/routes.ts:287 | the characters of attribute names are digits, Latin letters and the underscore |
| ScimPatch.BarePathExact | mcp-server/src/scim/routes.ts:292-294 | and without one if and only if it is an allow-listed attribute |
| ScimPatch.FilterPathRoundTrip | mcp-server/src/scim/routes.ts:286-295 | a path with an equality filter is read back as it was written |
| ScimApply.CopyAsArray | mcp-server/src/scim/routes.ts:297-305 | always a fresh array with the contents, never the one it was given |
| ScimApply.AppendNew | mcp-server/src/scim/routes.ts:369-372 | pushes onto the copy the items whose key is new, in order, and changes nothing else |
| ScimApply.AddOne | mcp-server/src/scim/routes.ts:382-389 | extends a copy of an array attribute, or sets a scalar one |
| ScimApply.RemoveOne | mcp-server/src/scim/routes.ts:393-409 | filters or clears an array attribute into a fresh array, or unsets a scalar one |
| ScimApply.ApplyOne | mcp-server/src/scim/routes.ts:346-411 | one operation, verb by verb |
| ScimApply.ApplyPatch | mcp-server/src/scim/routes.ts:337-413 | on mutable arrays: the result views as the specified partial resource, the current resource and the operations are unchanged, and the result holds no array of the current resource; or the missing-target error |
| ScimPatch.StepOver | mcp-server/src/scim/routes.ts:344 | an operation on a partial result equals the same operation after merging that result |
| ScimPatch.PatchComposes | mcp-server/src/scim/routes.ts:337-413 | one request with both lists and a merge gives the same resource as two requests merged one after the other (section 3.5.2 of RFC 7644) |
| ScimPatch.OnlyAllowedKeys | mcp-server/src/scim/routes.ts:262-273 | a patch never holds a key outside the allow list |
| ScimPatch.AddThenRemove | mcp-server/src/scim/routes.ts:382-403 | after adding, the element stands at the end unless its key was there; removing it by its value leaves the elements that never had that value, so it restores the list if and only if none had it |
| ScimLaws.AddItemsExact | mcp-server/src/scim/routes.ts:369-372 | an append keeps the old elements in front and adds exactly the first items of each key that was missing, in order and once each; afterwards every key is there |
| ScimLaws.AddTwiceIsOnce | mcp-server/src/scim/routes.ts:369-372 | adding the same items twice is adding them once |
| ScimLaws.ListOf | mcp-server/src/scim/routes.ts:301-305 | what stands for a list: an array, nothing, or a single value |
| ScimLaws.KeyOfElement | mcp-server/src/scim/routes.ts:309-314 | elements with a value are told apart by its text, all others by their own |
| ScimLaws.ReplaceAttribute | mcp-server/src/scim/routes.ts:358-360 | replace with a path sets that attribute of the merged resource and no other |
| ScimLaws.AddToAttribute | mcp-server/src/scim/routes.ts:380-390 | add with a path extends a list and sets a single-valued attribute, and no other |
| ScimLaws.RemoveAttribute | mcp-server/src/scim/routes.ts:404-408 | remove empties a list and unsets a single-valued attribute |
| ScimLaws.RemoveMatching | mcp-server/src/scim/routes.ts:397-403 | remove with a filter drops exactly the elements whose sub-attribute reads as the value, and the others keep their order |
| ScimLaws.RemoveFiltered | mcp-server/src/scim/routes.ts:406-408 | a filter on a single-valued attribute unsets it whatever it holds |
| ScimLaws.ReplaceResource | mcp-server/src/scim/routes.ts:349-357 | replace without a path sets the allow-listed fields it is given and keeps every other attribute |
| ScimLaws.AddToResource | mcp-server/src/scim/routes.ts:363-379 | add without a path does, and extends the lists among them |
| ScimLaws.OtherOperations | mcp-server/src/scim/routes.ts:346-411 | every other operation changes nothing |
| ScimStores.ScimStore.UpdateUser | mcp-server/src/scim/store.ts:109-125 | merges the patch into the first user with the id, fixing schemas, id and time stamp, or reports a missing user |
| ScimStores.ScimStore.UpdateGroup | mcp-server/src/scim/store.ts:163-179 | the same for groups |
| ScimStores.ScimStore.DeleteUser | mcp-server/src/scim/store.ts:127-137 | drops the user and its memberships; an unknown user changes nothing |
| ScimStores.UpdatedReads | mcp-server/src/scim/store.ts:112-122 | schemas and id are fixed, the metadata keeps all but its time stamp, and every other attribute is the one of the patch, else the current one |
| ScimStores.PatchReadsAllowed | mcp-server/src/scim/store.ts:109-125 | patching reads nothing outside the allow list, so the fixed fields cannot influence it |
| ScimStores.StoredPatchComposes | mcp-server/src/scim/store.ts:109-125 | two stored PATCH requests equal one with all operations, up to the last time stamp |
| ScimStores.WithoutMemberExact | mcp-server/src/scim/store.ts:132-134 | exactly the members with another id stay, in order and as often as they were listed |
| ScimStores.OthersExact | mcp-server/src/scim/store.ts:129 | exactly the users with another id stay, in order and as often as they were listed |
| ScimStores.DeletedUserIsNowhere | mcp-server/src/scim/store.ts:127-137 | after a deletion the list holds every other user and none with the id, no group lists the user, and everything else stays |
| CommandLine.SplitCommand | mcp-server/src/federation/registry.ts:106-122 | command and arguments of every text |
| CommandLine.SplitUndoesLayout | mcp-server/src/federation/registry.ts:102-122 | any nonempty tokens come back from their escaped texts, whatever blanks surround and separate them |
| CommandLine.SplitIsWords | mcp-server/src/federation/registry.ts:106-122 | the machine equals a lexer followed by cutting at gaps; no token is empty and a backslash at the end stands for nothing |
| LogQL.PassesAreOne | mcp-server/src/connectors/loki.ts:58-65 | the five replacement passes equal one pass over the characters |
| LogQL.LiteralRoundTrip | mcp-server/src/connectors/loki.ts:55-65 | a literal reads back as its value and ends at its own closing quote, whatever follows |
| LogQL.NothingBare | mcp-server/src/connectors/loki.ts:55-65 | no raw line break or tab, and a quote only after a backslash |
| LogQL.FiltersRoundTrip | mcp-server/src/connectors/loki.ts:76-82 | for valid label names the filter text reads back as the labels, sorted by name |

## Left out

- Fetch-based connectors, federation transports, HTTP routes and middleware, telemetry, TLS, the CLI and the UI: input and output around libraries and remote services.
- Cryptography: only injectivity of the digest is used.
- Snapshot and state files of the quota trackers, profiles and SCIM store, debouncing and atomic renames; of a budget restart only the filtering and sorting are modelled.
- Token estimation, environment parsing and per-key limits: they only produce the numbers the trackers are given.
- Concurrent read-modify-write of one lockout entry between its awaits, and the Redis store: the store is a map with expiry at the millisecond, and an operation is one step.
- `AuditLog.list`, sinks, and a log without a file.
- AuditLogs.AuditLog.Bootstrap: a sequence number of a foreign file that is not an integer is ignored, where the code would take it.
- Lone surrogates and UTF-16 sort order: text is a sequence of Unicode scalar values, and keys are ordered by them.
- JSON values that cannot occur in a log entry: functions, symbols and big integers.
- AuditLogs.FileAlwaysVerifies: assumes inputs with distinct keys that do not name the chain fields, which is what the type of the argument says.
- AuditLogs.FileAcceptedExactly: assumes the same, and inputs of values that JSON can express; an append that writes part of a line is not captured.
- Topology snapshots as lists: resources and edges are compared as a map and a set of keys, so the listing order and repeated keys within one owner are not told apart.
- Topology.BuildersAreProper: assumes names and namespaces without `|`, as the platform guarantees.
- Owner kinds that name inherited properties of a JavaScript object, such as `constructor`; likewise argument keys of profiles and filter attributes of SCIM paths.
- Topology.TopologyStore.UpsertResource: the caller keeps no alias of the edge list it hands over; listeners are represented by the stream of delivered events.
- Correlator: `correlateSignals`, the reasons and the summary text.
- Anomaly: the z-score and seasonal detectors, metric classification, rounding of floating-point numbers, and reasons.
- Anomaly.UnitInvariant: requires a baseline with nonzero MAD and a nonempty recent window; over a perfectly flat baseline the scale is an absolute or relative epsilon and depends on the origin.
- Profiles: the `detail` text of a deviation, absent versus empty argument maps, and persistence; rules are values, so the sharing of rule objects between listings is not captured.
- Profiles.LearnedExactly: requires distinct ids and no `*` subject among the observations.
- ProfileStores.AbsorbExactly: requires unique ids, no `*` subjects, and that the id of the call stands for its subject and tool.
- ProfileStores.RunSound: edits of a rule's subject are not part of the runs, since they detach it from its id.
- ScimApply: an object inside an attribute is immutable, as no operation changes one; requests without a list of operations are the empty list.
- ScimStores: resources are values there, so an array that a stored resource shares with a request is not told apart; creating users and groups, listing, and persistence; `members` is a list when present.
- LogQL: only the escapes that the encoder emits are read; other escapes of the query language are errors of the reader.
- Products, postmortems, catalog, tenancy, role tables, revocation, paging and health scores are not part of this model.
