# UniRate: a verified model of the rate-limiting gateway

UniRate is a rate-limiting gateway of which many instances run in front of one Redis. This project models the parts whose
correctness spans functions, instances or whole runs, and proves what they promise.

- `Prelude`, `Window`, `Keys`, `KeyValues`: Go's integer arithmetic and decimal text, window boundaries, Redis keys and their
  decoder, and the values requests can bring.
- `Rules`, `RuleValidateJs`: rule validation in Go, and its mirror in the browser proved against it.
- `Redis`, `BatchCheck`, `TwoPhase`: the values and expiries the scripts use; the three Lua scripts as one server object; the
  two-phase property of the admission script.
- `AtKey`, `Runs`: one key's view of a batch, and runs: the script calls of all instances in the order Redis executes them.
  On them stand `FixedWindow`, `SlidingWindow`, `TokenBucket`, `Concurrency` and `TokenLedger`, one per kind of rule;
  `SlidingRule` puts a sliding rule's keys together over its boundaries, `BucketRules` is about several bucket rules on one key,
  `BucketFamilies` about the lists that several domains bring there, and `BucketChecks` about those that Check sends.
  `ConcurrencyRule` states the slots of a concurrency rule by the rule's fields, over runs of Checks.
- `Breaker`, `LocalFallback`, `Limiter`, `GateRuns`, `Degraded`, `ClashRun`, `Cluster`: the circuit breaker, the negative cache and
  local quotas, the decision on a request (`Limiter.Gateway.Check`), what it promises over runs, what a request is charged without
  Redis, two clashing rules run from an empty store, and one fixed rule on a whole cluster.
- `RequestKeys`, `KeyPreview`: the keys Check builds for the requests it can receive, and the browser's preview of them.
- `TokenAdmission`, `TokenCharges`, `Metering`, `Stream`, `LongLines`: token budgets from admission to the last settle of a stream.
- `ConfigSync`: propagation of the configuration.
- `Histogram`, `RingWindow`: latency histograms, quantiles read off them, and the rolling one-minute counter.

Objects whose methods update fields are classes with the same fields and loops; each method is proved against a function of the
old state, and the theorems are about those functions over all runs. Counts and times are mathematical integers, and Go's int64
multiplication in the window parser wraps explicitly; refill, buffers and quantiles are reals. One script run, one breaker call and one
local-state call are atomic steps. What cannot be seen is a parameter: a digest of 24 hex characters, the outcome of each
remote call, each clock reading, the byte at which a write fails, the moments a flush is due, and the text analysis that turns a frame
into an estimate and a usage.

## Where the code and its claims part

Each of these is a lemma with the input that shows it, and where a property fails, the exact condition under which it holds.

- A fixed and a sliding rule over the same dimensions and window share a key of two types. The first batch errors after its first
  write, against the script's "all or nothing" (`TwoPhase.AtomicIffCompatible`, `GateRuns.CheckAtomicIff`). The errors count as
  failures of Redis: with the fixed rule first and its limit at least 2, once twenty requests with these two rules have failed in five
  seconds, and until some script run succeeds, every request with only request rules whose own script run fails is let through
  unlimited, with Redis up (`ClashRun.ClashFailsOpen`, `Degraded.ErrorsFailOpen`). A request whose own run is answered is limited as
  usual and closes the breaker (`GateRuns.AnswerCloses`); when failures trip it at all is `Breaker.TripIff`. In two domains the rules
  clash without meeting in a batch (`ClashRun.DomainsClash`).
- A sliding rule is documented to have no burst at window boundaries. Its key carries the boundary, so every boundary starts an empty
  set: with a limit of 1 per 60 s a request passes at 59.9 s and another at 60.0 s. Every sliding rule reaches twice its limit this
  way (`SlidingRule.TwiceReached`), and no more for clocks that agree and distinct ids (`SlidingRule.RuleBound`).
- A bucket's key carries neither window nor rate nor burst nor domain, so all bucket rules over the same dimensions share one state.
  In one request the last rule's write remains: followed by 100 per 100s with burst 100, a rule of 1 per 1s with burst 1 does not keep
  its burst (`BucketChecks.TwoBucketsClash`; exact condition `BucketChecks.CheckBucketsIff`). With the two rules in two domains, one
  request of the second lets ninety-nine of the first pass in one millisecond (`BucketChecks.TwoDomainsClash`; exact condition
  `BucketChecks.StoreBucketsIff`).
- The concurrency key lives for the last writer's timeout plus 60 s, so holders with a longer timeout are forgotten; and request ids
  come from the client's `X-Request-Id`, so requests with one id hold one slot. A cap of 1 holds in every run exactly when ids in flight
  on the key are distinct, and a larger one exactly when, besides, timeouts there lie within 60001 ms (`Concurrency.CappedIff`).
  Repeated ids defeat every sliding limit above 1 as well (`SlidingWindow.CappedIff`), by as much as they repeat
  (`SlidingWindow.LimitAndRepeats`).
- `144115188075855872d` is an accepted window of zero seconds, and a request bucket with it divides by zero in validation
  (`Rules.ZeroSecondWindow`, `Rules.PanicsIff`).
- Keys are said never to collide for different values. The encoding itself merges values: a method of more than 48 letters, or a
  business domain, and the text of its digest, or two long values of one digest (`KeyValues.LongMethodsCollide`; exactly what it
  merges is `KeyValues.SafeValKernel`). Beyond that, different values share keys if and only if the host has two interfaces of which
  one is named after the other and a dot, as VLAN interfaces are: clients on the link-local addresses of both can share a key
  (`KeyValues.ValuesIff`, `KeyValues.NamesCollide`).
- A refused concurrency slot is cached by the instance like a used-up window, so with a timeout of at most 10 s it goes on refusing after
  a slot has been released (`ConcurrencyRule.RefusalLingersIff`).
- Two token rules over the same dimensions and window share one ledger and pay every call twice (`TokenCharges.ChargedOnceIff`).
- The separate token check is said to equal the merged one bit for bit; it differs in the waiting time when nothing is left to wait for
  (`TokenAdmission.AdmitIsMerged`).
- Polling applies any snapshot without comparing versions, so after a failed SET a poll during the next publication lets a version go
  back (`ConfigSync.FailedSetGoesBack`, `ConfigSync.PollLowersIff`); a failed INCR stamps the clock as a version and freezes the
  instances that load it until the counter has passed that clock (`ConfigSync.FailedIncrFreezes`, `ConfigSync.ThawsIff`).
- A line longer than 16 KiB is forwarded intact but metered in pieces (`Stream.LongLineLeaks`; exact condition
  `LongLines.PayloadsExactIff`).
- A stream and a JSON response charge the same estimate differently (`Metering.JsonVersusStream`).

## Model

| member | source | states |
|---|---|---|
| `Window.BoundaryTiles` | internal/limiter/key.go:59-82 | the boundary plus the effective offset is a multiple of the window, and it starts the window holding the time if and only if the shifted time is not negative or already aligned (Go's truncating division rounds the rest up) |
| `Window.SameBoundaryIffSameWindow` | internal/limiter/key.go:59-82 | for shifted times from zero on, two times share a boundary exactly when one lies in the window the other's boundary starts |
| `Window.BoundaryMonotone` | internal/limiter/key.go:73-82 | later times never have an earlier boundary |
| `Window.BoundaryIdempotent` | internal/limiter/key.go:73-82 | the boundary of a boundary is itself |
| `Keys.BuildRateKey` | internal/limiter/key.go:86-103 | the buffer loop writes the five fields of a rate key |
| `Keys.BuildTokenBucketKey` | internal/limiter/key.go:108-121 | the buffer loop writes the three fields of a bucket key |
| `Keys.BuildConcurrencyKey` | internal/limiter/key.go:125-140 | the buffer loop writes the four fields of a concurrency key |
| `Keys.BuildTokenLedgerKey` | internal/limiter/key.go:143-160 | the buffer loop writes the five fields of a ledger key |
| `Keys.KeysDecode` | internal/limiter/key.go:11-47 | cutting any key at the bar gives back prefix, dimensions, encoded values, window and boundary, and cutting the dimension field at the dot gives back the dimensions |
| `Keys.KeysCoincideIff` | internal/limiter/key.go:84-160 | two keys of any of the six kinds, those with the deg and admit suffixes included, are equal if and only if they agree in kind, dimensions, window, boundary, encoded domain and joined encoded values |
| `KeyValues.InjectiveIff` | internal/meta/extract.go:64-171 | over all validated rules and all values a request can bring, equal keys force equal encoded values, position by position, if and only if no interface name of the host continues another after a dot |
| `KeyValues.SafeValKernel` | internal/limiter/key.go:36-47 | two values have one encoding exactly if they are equal, are both replaced by one digest, one is h and the other's digest, or they are the empty value and its stand-in |
| `KeyValues.ReceivedKernel` | internal/meta/extract.go:64-171 | of two different values one dimension can bring that share an encoding, both are replaced by one digest, or they are a business domain or method and its spelled-out digest |
| `KeyValues.ValuesIff` | internal/limiter/key.go:11-47 | over values: two requests share a key exactly when they agree in kind, dimensions, window and boundary and every value of theirs has one encoding, for all validated rules and received values, if and only if no interface name continues another after a dot |
| `KeyValues.LongMethodsCollide` | internal/limiter/key.go:36-47 | whatever the digest and the names, a method of 49 letters and the method spelling its digest are received and share a key |
| `KeyValues.AlikeSame` | internal/meta/extract.go:121-171 | without such names the joined encoded values of two requests decode, IPv4 and IPv6 addresses and methods with dots included, in every order of dimensions |
| `KeyValues.NamesCollide` | internal/limiter/key.go:11-24 | with such names, as of a VLAN interface and its parent, two requests by link-local clients share a key: eth0.100 with GET and eth0 with 100.GET |
| `RequestKeys.DimensionsReceived` | internal/limiter/limiter.go:166-186 | the values Check takes for a validated rule's dimensions are, position by position, values that request can bring, so the laws of received values hold for the keys Check builds |
| `RequestKeys.CheckKeysIff` | internal/limiter/limiter.go:209-258 | any two validated rules and requests, without such interface names: Check builds one key for both if and only if the rules are of one family over the same dimensions, window and boundary and the requests agree, up to the encoding, in every field those dimensions name, biz, path, token, ip and method each by its own field, and for concurrency in the domain |
| `KeyPreview.SafeValShape` | internal/adminui/assets/rule-preview.js:41-48 | the browser's encoding of a value is Go's, with its own constants and the digest shown as a sample |
| `KeyPreview.ValsOf` | internal/adminui/assets/rule-preview.js:27-59 | the previewed values are the encoded fields of the sample request, in Check's order |
| `KeyPreview.SampleKey` | internal/adminui/assets/rule-preview.js:75-124 | for every draft that validation accepts as it is, the previewed key is the key Check builds for the sample request at that time, and for a natural window the SCAN pattern matches it |
| `Rules.SecondsExactIff` | internal/limiter/rule.go:78-102 | the parsed seconds are the meant ones if and only if those fit an int64 |
| `Rules.UnitsMean` | internal/limiter/rule.go:88-98 | for every accepted number the units mean seconds, sixty of them, sixty of those, twenty-four of those and seven of those, and days and weeks alone are natural |
| `Rules.UnitsKnown` | internal/limiter/rule.go:78-100 | a window is accepted exactly if it is a positive int64 followed by one of the five units |
| `Rules.MutableRule.CheckDims` | internal/limiter/rule.go:110-128 | the loop finds the first fault in index order and otherwise normalizes every name in place |
| `Rules.NormalIff` | internal/limiter/rule.go:114-118 | a name is normalized to a dimension exactly if it spells it in letters of either case with nothing but white space around |
| `Rules.MutableRule.Validate` | internal/limiter/rule.go:104-189 | validation in place: the first fault, or the rewritten rule |
| `Rules.MutableRule.CheckAlgorithm` | internal/limiter/rule.go:149-182 | the rate branch behind the window, with the division that can panic |
| `Rules.ValidateIdempotent` | internal/config/store.go:238-255 | a rule that was validated and published validates again to itself on every instance that loads it |
| `Rules.PanicsIff` | internal/limiter/rule.go:163-173 | validation divides by zero exactly for a request bucket that passes every earlier check and whose window means a multiple of 2^64 seconds |
| `Rules.ZeroSecondWindow` | internal/limiter/rule.go:78-102 | an accepted window of positive meaning that loads as zero seconds |
| `RuleValidateJs.OverflowCheckExact` | internal/adminui/assets/rule-validate.js:45-52 | strip zeros, compare length, compare text rejects a digit string if and only if its value exceeds 2^63-1 |
| `RuleValidateJs.WindowsAgree` | internal/adminui/assets/rule-validate.js:18-66 | both parsers accept the same strings, reject the others for the same reason and agree on the natural flag; below 2^53 seconds they agree on the seconds |
| `RuleValidateJs.SameConstants` | internal/adminui/assets/rule-spec.js:38-55 | the browser's own tables of dimensions, units and natural units are Go's |
| `RuleValidateJs.CheckDimensions` | internal/adminui/assets/rule-validate.js:103-126 | the browser's loop reports exactly Go's first dimension fault |
| `RuleValidateJs.GoReportsWrong` | internal/limiter/rule.go:104-189 | the fault Go reports is wrong by itself, and Go accepts only when nothing is |
| `RuleValidateJs.Validate` | internal/adminui/assets/rule-validate.js:128-263 | the blocking list is exactly what is wrong with the draft, it is empty if and only if Go accepts, it holds Go's first fault, and the announced rewrites are exactly the ones Go performs, values included |
| `BatchCheck.Server.TryFixed` | internal/limiter/scripts/batch_check.lua:70-78 | the fixed-window trial |
| `BatchCheck.Server.TrySliding` | internal/limiter/scripts/batch_check.lua:80-96 | the sliding-window trial with its cleanup |
| `BatchCheck.Server.TryBucket` | internal/limiter/scripts/batch_check.lua:98-122 | the token-bucket trial |
| `BatchCheck.Server.TryConc` | internal/limiter/scripts/batch_check.lua:124-137 | the concurrency trial with its cleanup |
| `BatchCheck.Server.TryTkAdmit` | internal/limiter/scripts/batch_check.lua:139-153 | the read-only token trial with its placeholder |
| `BatchCheck.Server.CommitPlan` | internal/limiter/scripts/batch_check.lua:163-182 | one write of phase 2 |
| `BatchCheck.Server.BatchCheck` | internal/limiter/scripts/batch_check.lua:51-184 | the two loops, the second stopping at the first missing plan as ipairs does, compute the two-phase step |
| `BatchCheck.Server.ReleaseConc` | internal/limiter/scripts/release_conc.lua:16-20 | removal of one member per key, counted |
| `BatchCheck.Server.LedgerReserve` | internal/limiter/scripts/token_ledger.lua:39-50 | the reserve branch of the ledger |
| `BatchCheck.Server.LedgerSettle` | internal/limiter/scripts/token_ledger.lua:52-78 | the settle branch of the ledger |
| `TwoPhase.TryFromReadOnly` | internal/limiter/scripts/batch_check.lua:57-160 | phase 1 removes stale set members and nothing else; when it passes there is one plan per rule and each fits its key |
| `TwoPhase.AllOrNothing` | internal/limiter/scripts/batch_check.lua:8-15 | for compatible rules the reply 1 means every plan was committed and any other reply that nothing but stale members went away |
| `TwoPhase.IncompatibleTears` | internal/limiter/scripts/batch_check.lua:162-184 | every incompatible list of usable rules fails half way on the empty store: an error is returned and a write stays |
| `TwoPhase.AtomicIffCompatible` | docs/decisions/ADR-003.md:64-78 | over every store, time and request a batch of usable rules is all or nothing if and only if its writing rules agree on the type of every key they share |
| `FixedWindow.NeverOversold` | internal/limiter/limiter.go:188-197 | in every run of any number of instances with any traffic on other keys, clashing batches included, at most limit batches are admitted on one window key |
| `FixedWindow.CounterIsAdmissions` | internal/limiter/scripts/batch_check.lua:70-78 | with one rule per batch the counter is the number of admissions and the rule refuses exactly when the limit is used up |
| `FixedWindow.RetryExact` | internal/limiter/scripts/batch_check.lua:71-76 | without further traffic on the key the waiting time of a refusal is exact: the rule passes when that many milliseconds are over and not before |
| `Cluster.ServeIs` | internal/limiter/limiter.go:198-333 | Check with one fixed rule: turned away by its own negative cache, or decided by the script, with the cache entry that leaves |
| `Cluster.ExactlyTheLimit` | internal/limiter/limiter.go:198-333 | for every window, every number of instances and every interleaving, n offered requests admit exactly min(n, limit), negative caches included |
| `SlidingWindow.SetIsHistory` | internal/limiter/scripts/batch_check.lua:80-96 | in every run the sorted set on one key holds exactly the members admitted there in the last window, each with its latest time |
| `SlidingWindow.DecisionExact` | internal/limiter/scripts/batch_check.lua:80-96 | on one key the decision is the one the number of members admitted in the last window calls for, both ways |
| `SlidingWindow.LimitAndRepeats` | internal/limiter/scripts/batch_check.lua:80-96 | whatever the ids, on one key no interval of one window length holds more admissions than the limit plus the repeated ids among them |
| `SlidingWindow.NoWindowOversold` | internal/limiter/scripts/batch_check.lua:80-96 | on one key no interval of one window length, wherever it lies, holds more than limit admissions, as long as no id repeats within a window |
| `SlidingWindow.RepeatedIdOversells` | internal/proxy/handler.go:149-152 | requests that repeat an id overwrite each other's member: under any limit of at least 2 some run admits any number at once |
| `SlidingWindow.CappedIff` | internal/limiter/scripts/batch_check.lua:80-96 | limit by limit: it holds on one key in every run with distinct ids, or in every run whatever the ids, if and only if ids are distinct or the limit is at most 1 |
| `SlidingWindow.RetryExact` | internal/limiter/scripts/batch_check.lua:86-95 | with the set on one key full the waiting time is exact there: room appears at that millisecond and not one earlier |
| `SlidingRule.LimitPerBoundary` | internal/limiter/limiter.go:246-249 | over runs of Checks with the rule and without it, releases and charges, the admissions of a sliding rule that share a window boundary are at most limit in any interval of one window length, with distinct ids at the rule's keys |
| `SlidingRule.OtherKinds` | internal/limiter/key.go:84-160 | no concurrency, ledger or bucket key is one of a sliding rule's |
| `SlidingRule.RuleBound` | internal/limiter/limiter.go:246-249 | over all boundaries they are at most n times the limit, where n - 1 windows cover a window and twice the clock skew: twice the limit for clocks that agree |
| `SlidingRule.TwiceReached` | internal/limiter/limiter.go:246-249 | every sliding rule admits twice its limit within two milliseconds around a boundary, which starts a new set |
| `TokenBucket.ExpiryInvisible` | internal/limiter/scripts/batch_check.lua:174-177 | reclaiming the key never changes the level the script reads |
| `TokenBucket.NeverOverfilled` | internal/limiter/scripts/batch_check.lua:98-122 | on a key whose batches all end with one bucket rule, from any call on, admissions plus what is left are at most that rule's burst plus the refill of the time between |
| `TokenBucket.RetryExact` | internal/limiter/scripts/batch_check.lua:117-121 | the waiting time is exact: a token is there at that millisecond and not one earlier |
| `BucketRules.EachOwnBoundIff` | internal/limiter/key.go:105-121 | on a key that only batches with one list of bucket rules use, each rule keeps its own burst plus refill in every run if and only if the last one has the smallest burst and rate, or has burst 1 and every rule refills a token before the key expires |
| `BucketFamilies.EachKeptIff` | internal/limiter/key.go:105-121 | over all runs whose batches carry any of several lists of bucket rules on a key, the bucket is kept for every rule, its granted requests plus the tokens left being at most its burst plus its refill and at most the tokens of any earlier moment plus its refill since, if and only if for every list and every rule: a list with the rule ends with no larger burst and a rate no faster, or burst 1; a list without it ends with a burst at most one larger and gains at most the token its write costs; and no list's key expires before the rule has refilled what the next list finds |
| `BucketFamilies.OneListIff` | internal/limiter/key.go:105-121 | for one list the bucket is kept exactly when every rule's own burst plus refill holds |
| `BucketFamilies.CountsNeed` | internal/limiter/key.go:105-121 | a kept bucket keeps every rule's count, over the batches that carry it, within burst plus refill; and where those counts hold, each list keeps its own rules' bounds by itself, no list ends with a burst above another rule's by more than one, none that is faster than a rule fills up by more than its refill and one token, and what a list finds on an expired key is at most one token above the condition |
| `BucketChecks.CheckBucketsIff` | internal/limiter/limiter.go:236-244 | the same condition for the bucket rules that one request's Check sends for one set of dimensions, whatever their windows |
| `BucketChecks.StoreBucketsIff` | internal/config/store.go:129-139 | for the rule lists of all domains, before and after a reload: a Check brings one of their lists to the key or nothing, and the bucket is kept for every rule of every domain if and only if the lists agree |
| `BucketChecks.TwoDomainsClash` | internal/config/store.go:129-139 | domain a with 1 per 1s burst 1 and domain b with 100 per 100s burst 100 over one dimension: a's list keeps its bound by itself, and after one request of b ninety-nine of a's pass in the same millisecond |
| `BucketChecks.TwoBucketsClash` | internal/limiter/rule.go:149-182 | 1 per 1s with burst 1 and 100 per 100s with burst 100 over the same dimension both validate, live on one key and break the first one's bound |
| `Concurrency.SlotsAreHolders` | internal/limiter/scripts/batch_check.lua:124-137 | in every run, ids repeated or not and several timeouts per batch included, the set is the unreleased ids with their latest deadlines, and every decision is the one the unexpired ones call for; a refused request holds nothing |
| `Concurrency.IdsWithinLimit` | internal/limiter/limiter.go:231-234 | unexpired ids never exceed the limit, for timeouts on one key within 60001 ms of each other |
| `Concurrency.NeverOverLimit` | internal/limiter/limiter.go:231-234 | unexpired requests never exceed the limit either, as long as no two in flight on the key share an id |
| `Concurrency.Drains` | internal/limiter/scripts/batch_check.lua:132-133 | once every admitted request has been released or has timed out the set is empty |
| `Concurrency.ReleaseIdempotent` | internal/limiter/scripts/release_conc.lua:1-20 | releasing again removes and changes nothing |
| `Concurrency.ReleaseCounts` | internal/limiter/scripts/release_conc.lua:16-20 | a release reports as many removals as sets held the request |
| `Concurrency.WideTimeoutsOversell` | internal/limiter/scripts/batch_check.lua:178-181 | for every limit of at least 2, timeouts further apart than 60001 ms let one more unexpired request than the limit hold its slots, with distinct ids, because the last writer sets the key's expiry |
| `Concurrency.RepeatedIdOversells` | internal/proxy/handler.go:149-152 | one client-supplied id lets any number of requests hold a slot of two or more |
| `Concurrency.LateReleaseOversells` | internal/proxy/handler.go:149-152 | under a limit of 1 the release of a request that has timed out frees the slot of a later one with its id |
| `Concurrency.CappedIff` | internal/limiter/scripts/batch_check.lua:178-181 | limit by limit: the cap holds in every run if and only if the limit is 0, or ids in flight on the key are distinct and the limit is 1 or the timeouts lie within 60001 ms |
| `ConcurrencyRule.SlotsWithin` | internal/limiter/limiter.go:231-234 | by the rule's own fields, over runs of Checks with any rules, the ends of such requests and charges: the ids with an unlapsed slot of one domain and one set of dimension values are never more than max_concurrent, and they are what the store holds |
| `ConcurrencyRule.RequestsWithin` | internal/limiter/limiter.go:231-234 | neither are the requests in flight there, if no two of them share an id |
| `ConcurrencyRule.EveryCheck` | internal/limiter/limiter.go:209-271 | a Check of those slots with any other rules is admitted only if every rule over them has a slot free, and a refusal by one of them finds its max_concurrent taken and asks to wait for its timeout |
| `ConcurrencyRule.AdmittedIff` | internal/limiter/limiter.go:231-234 | a Check with the rule alone is admitted if and only if fewer than max_concurrent ids hold an unlapsed slot; its id then holds one, in the store, until Redis's time plus the timeout |
| `ConcurrencyRule.RefusalLingersIff` | internal/limiter/limiter.go:215-265 | an instance that was refused a slot turns later requests away by itself, even if a slot has been released since, exactly when the timeout is at most 10 s and for that long |
| `TokenLedger.AdmitsAgree` | internal/limiter/scripts/batch_check.lua:139-153 | the merged trial answers as the ledger's admit branch, waiting time included |
| `TokenLedger.RetryExact` | internal/limiter/scripts/batch_check.lua:139-153 | without further charges the waiting time is exact: the rule passes when that many milliseconds are over and not before |
| `TokenLedger.NeverOverspent` | internal/limiter/ledger.go:8-16 | with at most K requests in flight each charging at most M, admitted by their own rules, the current window's ledger never exceeds the largest of their limits - 1 + K*M, whatever the interleaving of reserves, settles, refunds and window changes |
| `TokenLedger.LedgerConserves` | internal/limiter/scripts/token_ledger.lua:32-78 | inside one key lifetime the ledger is the sum of the requests' net charges; the clamp at zero is never needed |
| `TokenLedger.LifetimeStarts` | internal/limiter/scripts/token_ledger.lua:39-69 | the key expires exactly its lifetime after the last reserve that found nothing used, or after the settle that created it: no charge in between prolongs it, and one after a full refund does |
| `TokenAdmission.TokenAdmit` | internal/limiter/ledger.go:17-59 | the separate token check, errors and local quotas included |
| `TokenAdmission.AdmitExact` | internal/limiter/ledger.go:17-59 | whatever the script runs answer: a request is let in if and only if every enabled token rule that is answered has used less than its limit and every other one is granted a unit of its local quota, under its ledger key with the admit suffix, each of those counting as a failure for the breaker, and a refusal names one whose budget or quota is used up |
| `TokenAdmission.AdmitIsMerged` | internal/limiter/limiter.go:219-229 | for any rules of a request: while Redis answers, the merged batch lets it in if and only if the separate check does and the batch of the other rules does, and then leaves the same store; a refusal names the first rule in the request's order at which either stops, with that one's wait; a wait of nothing becomes a whole window in the separate check only |
| `TokenAdmission.MergedBatch` | docs/decisions/ADR-003.md:64-78 | on the script itself, a batch and the same batch without its token rules stop, pass and write alike but for the ledgers' refusals |
| `TokenCharges.TokenReserve` | internal/limiter/ledger.go:63-81 | the loop charges every enabled token rule's ledger, errors ignored |
| `TokenCharges.TokenSettle` | internal/limiter/ledger.go:88-107 | the loop corrects every enabled token rule's ledger, errors ignored |
| `TokenCharges.ChargedPerRule` | internal/limiter/ledger.go:63-107 | a call adds its delta to a ledger once for every enabled token rule that lives there, stopping at zero |
| `TokenCharges.ChargedOnceIff` | internal/limiter/ledger.go:63-107 | every token rule's ledger is charged exactly once per call if and only if no two token rules share dimensions and window |
| `TokenCharges.SettledLedgerIsCost` | internal/proxy/handler.go:439-497 | any number of streams, each with its own safety buffer and parser, their ledger calls interleaved at will: once all have ended the ledger is exactly the sum of what they should cost |
| `Breaker.CircuitBreaker.IsDegraded` | internal/limiter/breaker.go:62-77 | the question, which may half-open the breaker |
| `Breaker.CircuitBreaker.Success` | internal/limiter/breaker.go:79-92 | a success counts, rolls the window or closes the breaker |
| `Breaker.CircuitBreaker.Failure` | internal/limiter/breaker.go:94-118 | a failure counts, trips or re-opens the breaker; the ratio test on reals is the integer one |
| `Breaker.NotClosedIffTripped` | internal/limiter/breaker.go:62-118 | over every history the breaker is not closed if and only if it has tripped and no success came since |
| `Breaker.CountersExact` | internal/limiter/breaker.go:62-124 | over every history and in every status, open and half-open included, the two counters are the failures and successes counted since the last recovery, trip or roll, all inside the current window; failures of a half-open breaker do not count |
| `Breaker.TripIff` | internal/limiter/breaker.go:94-118 | over every history a failure raises the trip count, and opens a closed breaker, if and only if the breaker is not half-open and the counted failures with it are at least 20 and at least half of their window |
| `Breaker.TripJustified` | internal/limiter/breaker.go:94-118 | every trip is a failure that with the failures of one such stretch makes at least 20 and at least half of it |
| `Breaker.FewFailuresStayClosed` | internal/limiter/breaker.go:94-118 | fewer than 20 failures never open the breaker |
| `Breaker.CalmStaysClosed` | internal/limiter/breaker.go:94-124 | a history with fewer than 20 failures in every interval of 5 s leaves the breaker closed |
| `Breaker.TwentyFailures` | internal/limiter/breaker.go:50-58 | in the first 5 s of a new breaker and without a success it is closed exactly as long as fewer than 20 runs have failed |
| `Breaker.HalfOpensIff` | internal/limiter/breaker.go:66-76 | over every history a breaker becomes half-open exactly when it is asked more than 2 s after its last trip or reopening |
| `LocalFallback.Fallback.AddBlock` | internal/limiter/local.go:46-51 | a new block and the lazy cleanup after it |
| `LocalFallback.Fallback.TakeQuota` | internal/limiter/local.go:54-70 | one unit of a local quota, or a refusal |
| `LocalFallback.Fallback.Collect` | internal/limiter/local.go:73-88 | the two deleting loops leave exactly the entries that have not expired |
| `LocalFallback.CleanupInvisible` | internal/limiter/local.go:36-88 | over every sequence of calls in time order, each answer is the one an object without cleanup gives |
| `LocalFallback.CleansUp` | internal/limiter/local.go:72-88 | the cleanup comes with the first new block or granted unit 30 s after the last one, leaves nothing that has expired and keeps everything that has not |
| `LocalFallback.ChargedSurvives` | internal/limiter/local.go:66-69 | the entry just charged is never removed |
| `LocalFallback.EpochsApart` | internal/limiter/local.go:59-63 | a new epoch starts more than a window after the last |
| `LocalFallback.EpochFull` | internal/limiter/local.go:53-70 | of the calls of one epoch on a key, through cleanup and traffic on other keys, exactly as many get through as the quota has units, if there are that many |
| `LocalFallback.GrantsBounded` | internal/limiter/local.go:53-70 | no closed interval as long as the window lets through more than twice the largest quota its calls carry, through cleanup and traffic on other keys |
| `Limiter.ValidatedIsLoaded` | internal/limiter/rule.go:104-189 | what validation guarantees about the rules Check is given |
| `Limiter.Gateway.QuotaPerInstance` | internal/limiter/limiter.go:98-108 | the local quota |
| `Limiter.Gateway.ValuesOf` | internal/limiter/limiter.go:166-186 | the values of the rule's dimensions |
| `Limiter.DimValuesAligned` | internal/limiter/limiter.go:166-186 | every known dimension contributes the field of the request it names, in order: biz, path, token, ip and method each its own, and global the underscore |
| `Limiter.Gateway.Describe` | internal/limiter/limiter.go:211-258 | the key and the script entry of one rule |
| `Limiter.Gateway.Gather` | internal/limiter/limiter.go:203-277 | the loop over the rules: the payload and the keys held, or the first block of the negative cache |
| `Limiter.Gateway.Finish` | internal/limiter/limiter.go:284-333 | from the script run on: breaker, hold, denial, new block |
| `Limiter.Gateway.Check` | internal/limiter/limiter.go:198-333 | the whole of Check as a function of the state |
| `Limiter.Gateway.Degrade` | internal/limiter/limiter.go:336-377 | the degraded choice, rule by rule, with the quotas it consumes |
| `Degraded.QuotasSumIff` | internal/limiter/limiter.go:92-108 | n instances' local quotas stay within the total if and only if n is at most the limit, and then leave fewer than n units of it unused |
| `Degraded.DegradedCharges` | internal/limiter/limiter.go:336-377 | a request whose script run fails in an outage is charged, in order, one unit of local quota for every enabled rule that is a token budget or a concurrency rule, with that rule's key, share and window; it passes if and only if all are granted, the first that is not refuses, and without such a rule it passes with no quota call |
| `Degraded.AdmittedIsCharged` | internal/limiter/limiter.go:423-431 | in every run, through resizes, a request let through degraded was granted one unit for every enabled rule with metric token or of type concurrency |
| `GateRuns.CheckAtomicIff` | internal/limiter/limiter.go:211-258 | the batch Check sends for validated rules is all or nothing if and only if no fixed and sliding rule count the same dimensions over the same window |
| `GateRuns.HoldReleasesAll` | internal/limiter/limiter.go:306-313 | the hold of an admitted request is what its release needs to leave every concurrency set of its rules, and only such a request holds anything |
| `GateRuns.FailClosedUntilOutage` | internal/limiter/limiter.go:285-304 | over every history, other requests' events interleaved at will, an errored request is let through only in a proven outage, and is otherwise refused without touching the local quotas |
| `GateRuns.FewFailuresNeverAdmit` | internal/limiter/limiter.go:285-304 | with fewer than 20 failures no errored request is let through |
| `GateRuns.AdmittedErrorsProveOutage` | internal/limiter/limiter.go:284-304 | in a run of Check, a degraded admission proves an outage at that moment |
| `Degraded.DegradedAllowsBounded` | internal/limiter/limiter.go:76-108 | over a run, in any closed interval as long as the window at most twice the largest local quota in force of degraded admissions use one key, through changes of the number of instances and rejected batches that leave earlier quotas consumed |
| `GateRuns.DecisionIsScript` | internal/limiter/limiter.go:304-333 | behind the negative cache an undegraded admission is exactly the script's reply 1, and a refusal names the rule whose trial failed; the unknown rule never occurs |
| `GateRuns.RefusalBlocks` | internal/limiter/limiter.go:318-325 | after a refusal by the script the negative cache holds, besides what it held, the key of the rule whose trial failed and no other, until the start of the request plus the script's waiting time, if that is at most 10 s |
| `GateRuns.LocalRefusal` | internal/limiter/limiter.go:257-265 | a request the negative cache turns away changes nothing; the decision names the first rule whose key is blocked and waits until that block ends |
| `GateRuns.AnswerCloses` | internal/limiter/limiter.go:284-333 | a request whose own script run is answered is decided by that answer, whatever the breaker says, and closes it |
| `GateRuns.ClashErrors` | internal/limiter/scripts/batch_check.lua:70-96 | a fixed and a sliding rule on one key answer with an error and leave at most a counter of one |
| `Degraded.ErrorsFailOpen` | internal/limiter/limiter.go:284-304 | over every history, a request of which no rule is a token budget or a concurrency rule and whose own script run failed is let through, with no quota call, exactly in a proven outage |
| `ClashRun.ClashFailsOpen` | internal/limiter/limiter.go:284-304 | two validated rules that clash, the fixed one sent first and with a limit of at least 2, run through Check and the script from an empty store: every run errors, the first nineteen requests are refused and, with twenty in the first five seconds, every later one passes unlimited |
| `ClashRun.LimitOneDenies` | internal/limiter/scripts/batch_check.lua:70-78 | with a fixed limit of 1 the second request is denied by that rule and is no error |
| `ClashRun.DomainsClash` | internal/config/store.go:129-139 | a fixed rule of one domain and a sliding rule of another on one key: each batch is compatible, the first passes, and every batch of the other kind errors until the key has expired |
| `Metering.Counter.PendingFlush` | internal/meter/token.go:95-109 | the increment to the buffered estimate, recorded as flushed |
| `Metering.Counter.Final` | internal/meter/token.go:111-121 | the exact usage, or else the buffered estimate |
| `Metering.Sink.OnData` | internal/proxy/handler.go:439-452 | a frame's usage and estimate |
| `Metering.Sink.OnFlushTick` | internal/proxy/handler.go:454-469 | an incremental reserve |
| `Metering.Sink.OnEnd` | internal/proxy/handler.go:471-497 | the tail reserve and the settle |
| `Metering.ReservedTracksEstimate` | internal/proxy/handler.go:454-469 | at each tick the reserved total is ceil(buffer * estimate so far), and it never decreases |
| `Metering.StreamConserves` | internal/proxy/handler.go:439-497 | for every series of frames and ticks the ledger calls sum up to the last exact usage, or ceil(buffer * estimate) without one; a settle comes last and corrects exactly what was reserved |
| `Metering.JsonCharge` | internal/proxy/handler.go:386-411 | what a JSON response is charged: header, then body, then estimate |
| `Metering.JsonVersusStream` | internal/proxy/handler.go:402-408 | the same estimate costs a stream and a JSON response the same if and only if, for a buffer above 1, the product is whole, or, for one between 0 and 1, the discount is less than one token; otherwise the stream pays one token more, or less |
| `Stream.CopySse` | internal/proxy/stream.go:60-122 | the copy loop over any body, any failing write, any tick schedule: bytes, frames, error, the calls on the sink, and its end exactly once and last |
| `Stream.WrittenExact` | internal/proxy/stream.go:68-114 | the bytes written are a prefix of the body and all of it unless a write failed |
| `Stream.PayloadsExact` | internal/proxy/stream.go:84-96 | when every line fits the buffer the sink is handed exactly the stripped data payloads, in order, up to the first failed write |
| `Stream.FlushCovers` | internal/proxy/stream.go:84-101 | a flush that is due at a line covers that line: what is reserved then is the buffered estimate of everything up to and including it |
| `LongLines.PayloadsExactIff` | internal/proxy/stream.go:84-108 | without a failed write the sink is handed exactly the payloads of the data lines if and only if every line longer than the buffer either is a data line that goes on in white space only, or is none and no later piece of it starts like one |
| `Stream.LongLineLeaks` | internal/proxy/stream.go:103-108 | a line longer than the buffer can hand the sink a payload although it is no data line |
| `Stream.CopyConserves` | internal/proxy/stream.go:60-122 | conservation for the frames actually delivered, for every body, schedule and disconnect |
| `ConfigSync.Store.Publish` | internal/config/store.go:202-235 | INCR, SET and the publisher's own update, each with its failure |
| `ConfigSync.Store.HandleMessage` | internal/config/store.go:318-324 | the notification handler and its version check |
| `ConfigSync.Store.PollOnce` | internal/config/store.go:354-365 | the polling round, which has none |
| `ConfigSync.VersionsAreWhole` | internal/config/store.go:194-222 | while INCR and SET succeed, every instance of every run is on exactly one published version, rules and overrides alike, at most the counter, and never steps back |
| `ConfigSync.PollConverges` | internal/config/store.go:332-366 | once no publication is under way one completed poll puts an instance on the latest version, however many messages were lost |
| `ConfigSync.NotifyCatchesUp` | internal/config/store.go:318-324 | a message that can be followed up leaves an instance on the stored snapshot, unless what it runs is newer |
| `ConfigSync.DegradedIff` | internal/config/store.go:332-366 | in every run an instance reports itself degraded if and only if its last poll failed and it has not published since |
| `ConfigSync.PollLowersIff` | internal/config/store.go:359-364 | a poll lowers a version if and only if the instance is ahead of the snapshot and behind the counter; a notification never does |
| `ConfigSync.FailedSetGoesBack` | internal/config/store.go:226-235 | after one failed SET, and with a second publication past its INCR but not its SET, a poll takes the publisher back |
| `ConfigSync.FailedIncrFreezes` | internal/config/store.go:202-206 | from the start: after any healthy run, one publication whose INCR fails and a message about it, an instance stays on the clock-stamped snapshot through every later healthy run until the counter passes the clock or it publishes |
| `ConfigSync.ThawsIff` | internal/config/store.go:354-365 | while it is there and no publication is under way, a completed poll moves it if and only if the counter has passed the clock, and then to the latest version |
| `Histogram.Buckets.Observe` | internal/obs/metrics.go:152-169 | one observation into its bucket |
| `Histogram.Buckets.Write` | internal/obs/metrics.go:171-204 | the rendered bucket at each bound is the number of observations not above it, and +Inf is the count |
| `Histogram.CumulativeExact` | internal/obs/metrics.go:181-187 | cumulative counts are counts of observations |
| `Histogram.LabelsAddUp` | internal/adminui/assets/metrics.js:137-144 | summing label sets gives the buckets of all their observations |
| `Histogram.DiffIsNew` | internal/adminui/assets/metrics.js:238-244 | the difference of two samples is the histogram of what came in between |
| `Histogram.HistQuantile` | internal/adminui/assets/metrics.js:109-135 | the loop finds the bucket and interpolates |
| `Histogram.InterpolateLinear` | internal/adminui/assets/metrics.js:125-133 | the interpolated value is the lower bound at the count before the bucket and the upper bound at the bucket's own, and rises with the target in equal steps between them |
| `Histogram.QuantileEncloses` | internal/adminui/assets/metrics.js:94-135 | the value lies in one bucket that also holds the true ceil(q*n)-th smallest observation of a sorted list; the exact and the open-ended branches are never taken |
| `RingWindow.Counter.Record` | internal/obs/window.go:38-52 | an addition to the slot of its second, reset when the slot is old |
| `RingWindow.Counter.Total` | internal/obs/window.go:55-65 | the sum of the slots that are not too old |
| `RingWindow.RingIsLog` | internal/obs/window.go:33-65 | the sum is the total logged in the last 60 seconds, over any gaps and reuse of slots |

## Left out

- Cluster.ExactlyTheLimit: assumes gateway clocks within 30 s of Redis's clock, because the key's lifetime of window plus 60 s, counted from
  its first use, covers the window only then; script runs are healthy.
- TokenLedger.NeverOverspent: the window of a request and the expiry of its key are read off one clock, so skew between gateways and
  Redis is not covered.
- TokenCharges.SettledLedgerIsCost: all calls fall into one lifetime of the ledger key and their script runs succeed; the code ignores
  failed charges, which then are lost, and a stream that crosses a window boundary settles in the later window.
- RuleValidateJs.Validate: drafts with integer fields and ASCII text whose window means less than 2^53 seconds; a double is known only to
  be exact up to 2^53 and monotone, and the list of skipped fields and the message texts are not modelled.
- Rules.MutableRule.Validate: Unicode spaces and case folding in dimension names are not modelled.
- Histogram.QuantileEncloses: over non-negative observations and reals, so rounding, NaN and the microsecond sum are not covered; the
  match of rendered bound labels is taken for granted.
- RingWindow.RingIsLog: sequential callers; concurrent additions to one slot are not modelled.
- ConfigSync.VersionsAreWhole: one publication at a time, and a handler's load, compare and apply as one step; a poll and a notification
  of one instance racing inside their handlers, and restarts, are not modelled.
- Degraded.DegradedAllowsBounded: the rules whose quota lives on the key all have one window, which only concurrency rules with
  different timeouts on one key do not; one instance.
- FixedWindow.NeverOversold: a batch that uses the key and itself clashes on another one is excluded; it can raise the counter
  without being admitted. So are such batches in `SlidingWindow`, `SlidingRule`, `Concurrency`, `TokenBucket`, `BucketRules` and
  `BucketFamilies`.
- TokenBucket.NeverOverfilled: all batches on the key end with the same bucket rule; any mixture is `BucketFamilies.EachKeptIff`.
- BucketFamilies.CountsNeed: the exact condition for several lists is that of the bucket, grants and tokens left. Without the tokens
  left it is necessary but for two allowances: one token where a key expires after a list without the rule or a last burst is 1,
  and the last millisecond before a faster list has filled the bucket, which the refills of whole milliseconds may never meet.
- SlidingRule.LimitPerBoundary: no fixed rule of any domain on the rule's keys, and no clash in a batch that uses them.
- SlidingWindow.NoWindowOversold: request ids within a window are distinct, which the code does not enforce; the exact condition is
  `SlidingWindow.CappedIff`. `SlidingRule.LimitPerBoundary` and `SlidingRule.RuleBound` share the hypothesis.
- SlidingWindow.RetryExact: on one key; for a rule, room can also appear sooner, at the next window boundary.
- Concurrency.NeverOverLimit: request ids in flight on one key are distinct, which the code does not enforce, and timeouts there lie
  within 60001 ms; the exact condition is `Concurrency.CappedIff`. `Concurrency.SlotsAreHolders`, `Concurrency.Drains` and, with 60 s,
  `ConcurrencyRule.SlotsWithin`, `ConcurrencyRule.EveryCheck` and `ConcurrencyRule.AdmittedIff` share the second hypothesis.
- ConcurrencyRule.SlotsWithin: every Check of the slots carries a rule over them with a limit no larger, and none of these batches holds
  a fixed and a sliding rule that clash.
- ConcurrencyRule.RequestsWithin: ids in flight on the slots are distinct, which the code does not enforce.
- FixedWindow.RetryExact: a key that has an expiry; `TokenLedger.RetryExact` likewise.
- KeyPreview.SampleKey: drafts that validation leaves as they are, whose window a double holds; key and pattern of other drafts, and the
  markup around them, are not modelled.
- KeyValues.InjectiveIff: interface names are at most 15 letters, digits, dots, dashes and underscores; peer addresses have the form
  host:port; the digest is not assumed to be free of collisions, so encoded values are what decodes, and `KeyValues.ValuesIff` says
  which values those are.
- TokenAdmission.AdmitIsMerged: the ledger reads and the batch of the separate flow happen at one moment; traffic between its two
  trips to Redis is not modelled.
- ClashRun.ClashFailsOpen: requests with the two clashing rules only, on one instance; mixed traffic is `Breaker.TripIff` and
  `GateRuns.AnswerCloses`.
- Stream.CopySse: time to first token and the moment of each flush are not modelled, only the number of frames.
- Two requests of one instance interleaved inside Check, except between a script error and the question to the breaker, where
  `GateRuns.FailClosedUntilOutage` allows any other events.
- The exactness of the negative cache for sliding, bucket and token rules; a refund can leave a block that Redis would no longer impose.
- int64 overflow outside the window parser (timeouts times 1000, times in nanoseconds, token totals): these are mathematical integers.
- Redis cluster slots, script caching, replication, transport errors after a script has run.
- HTTP, DNS, SQLite, upstream selection, authentication, admin handlers, exported metrics other than the two modelled.
- JSON and Unicode parsing of usage frames and the content of token estimation: a frame is an estimate and an optional usage.
- Policy parsing, watermarks, static pages, charts and the load generator: simple members without a property across functions.
