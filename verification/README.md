# Helix FND: a verified model of its stateful components

Helix FND is a Go foundation for microservices. This project models its five stateful
components in Dafny and proves what every run of them keeps:

- the GCRA rate limiter over an expiring Redis store, with the HTTP and gRPC middlewares and the
  in-memory fallback (`Redis`, `TokenBucket`, `Gcra`, `GcraRuns`, `Keys`, `RateLimiter`),
- the idempotency gate (`Idempotency`),
- the Kafka consumer with retry, dead-letter queue, commits, crashes and restarts (`Retry`, `Consumer`),
- the asynchronous audit logger under every interleaving (`Audit`,
  `AuditWarnings`, `AuditContexts`),
- the JWKS cache with its refreshes and its exponent decoder (`Jwks`, `Exponent`).

`dafny verify dfyconfig.toml` checks the whole project.

## How it is modelled

- **Imperative code** is a class or a method with loops (`Redis.Server`, `RateLimiter.Emergency`,
  `RateLimiter.Middleware`,
  `Idempotency.GateMiddleware`, `Retry.ProcessWithRetry`, `Consumer.KafkaConsumer`,
  `AuditWarnings.AsyncLogger`, `Jwks.CachingClient`, `Exponent.FoldExponent`), each proved equal to a
  function on values. The results are lemmas about those functions.
- **Concurrency** is a step system: one action per atomic step of one goroutine, and a theorem over
  every possible sequence of actions (`Audit.Possible`, `Jwks.Possible`).
- **Time** is exact: `real` seconds in Redis, integer nanoseconds in Go. Clocks do not run backwards.
  Floating-point rounding in the script is idealised away. A key written at `now` with `EX n` is gone
  from `now + n` on.
- **Redis calls** may fail before they reach the server or after they took effect
  (`LostRequest`, `LostReply`). A limiter key may be used under any mix of limits; where a bound is
  stated, each of them keeps its stored time long enough and within a common span.
- **Kafka**: a poll delivers each partition contiguously from the fetch position and moves it past
  all it delivers, a commit moves the watermark past the record or does nothing, each partition has
  one owner. The fetch position is set when a client joins; `Start` goes on from wherever it is. The
  handler, the dead-letter producer and cancellation are scripted by the environment. The process can
  be killed while polling, inside any handler call, between attempts, inside the dead-letter publish
  and between settling and commit; `Consumer.KilledAnywhere` shows that this is a kill after every event.
- **Audit logger**: the context of each `Log` call ends by an action of its own, at any time or never,
  and `Close` may come while calls are sending. A call that sends on the closed channel panics; whether
  that ends the process is left open.
- **JWKS**: base64 and JSON decoding are inputs; a field that does not decode is `None`.
- Every lemma carries `{:induction false}`: each proof is the one written down, with no induction
  hypothesis added automatically.

## What the proofs found

- The script forgets a key after `ceil(2 * period)` seconds. That is harmless exactly if
  `burst * period / rate <= ceil(2 * period)`; otherwise a second full burst gets in and the window
  bound is broken (`GcraRuns.ExpiryHarmlessExactly`, `GcraRuns.WindowBoundedExactly`).
- `Retry-After` is a promise that is kept exactly if `burst >= 1` (`GcraRuns.RetryPromiseExactly`).
- The fallback limiter refills by the second. It stands for twice the normal traffic, as the source
  says, exactly if `period` is one second, and for more exactly if it is longer
  (`RateLimiter.FallbackDoublesExactly`).
- The consumer skips a whole fetch when any part of it reports an error. Its no-loss guarantee holds
  exactly if the records of such a fetch had all been settled before, so in a first session exactly if
  it carries none (`Consumer.FailedPollExactly`).
- A second `Start` on the same client goes on behind the record that stopped the first, and the rest
  of its fetch. It is safe exactly after a first `Start` that returned nil
  (`Consumer.SecondStartExactly`); after an error the client must join anew.
- One record can be settled twice, with two fates, exactly if retries are limited and the consumer is
  permissive or has a dead-letter producer (`Consumer.FatesDifferExactly`); the last fate counts.
- The backoff follows the doubling formula at every step exactly if
  `InitialBackoff <= MaxBackoff < 2^62` ns; above that, doubling wraps to a negative duration
  (`Retry.BackoffExactly`).
- Handlers of one idempotency key are kept apart exactly if none runs longer than the expiry, or the
  expiry is not positive (`Idempotency.HandlersApartExactly`).
- The repository's `README.md` speaks of exactly-once processing. At most once holds over all runs exactly
  in fail-closed mode with an expiry that is not positive (`Idempotency.NeverTwiceExactly`). Among
  requests within one lock's time exactly one runs if the first call to reach Redis also gets its reply
  back, and none otherwise (`Idempotency.ExactlyOnceExactly`): a lost reply locks every retry out
  although no handler ran (`Idempotency.LostReplyLocksOut`). The model follows the code.
- Racing drops can warn twice in the same minute, the second reporting zero, from every start and under
  either strategy (`AuditWarnings.RaceIsReachable`). A burst of drops warns at most once exactly if
  one call drops or the last warning is at most a minute old (`AuditWarnings.OneWarningExactly`); the
  totals are exact all the same (`Audit.ReportsAreExact`).
- The repository's `README.md` promises no audit loss in blocking mode. The code drops an event, even
  with room in the channel, and can do so exactly if the call's context is done
  (`AuditContexts.BlockingDropExactly`); while no context ends nothing is lost
  (`AuditContexts.BlockingLosesNothing`).
- `Close` does not wait for `Log` calls. Once the channel is closed a call can panic exactly if it is
  sending or begins later (`Audit.PanicExactly`); accepted events are safe all the same.
- An emergency key refresh may join a fetch that started before the lookup did
  (`Jwks.RefreshMayPredateLookup`), exactly if the newest fetch at the lookup's start is still the one
  in flight (`Jwks.StaleJoinExactly`).

## Model

| member | source | states |
|---|---|---|
| `Redis.Server.Script` | server/middleware/ratelimit.go:19-50 | The Lua script as a method: new store and reply are those of the cell function `GcraCell`, about which the theorems below speak; a denial leaves the store alone |
| `Redis.Server.SetNx` | server/middleware/idempotency.go:45-48 | Takes the lock only if no live value is there, for the expiry; expiry zero and the client's keep-TTL value lock for ever, an expiry Redis refuses is an error |
| `Redis.Server.Serve` | server/middleware/ratelimit.go:89-92 | A lost request changes nothing, a lost reply hides an effect that took place |
| `Redis.ScriptFailsExactly` | server/middleware/ratelimit.go:31-45 | The script fails if and only if it meets a live lock, or would admit under a period that is not positive; unless it admits it leaves the key alone |
| `Redis.KeyRunsAlone` | server/middleware/ratelimit.go:87-90 | In any run over any keys the replies on one key are those of its own calls on its own cell |
| `Redis.OtherKeysDeletable` | server/middleware/ratelimit.go:79-90 | Deleting all calls on other keys from a run leaves one key's replies unchanged |
| `TokenBucket.TakenAreFunded` | server/middleware/ratelimit.go:52-58 | Tokens taken by a moment never exceed what was in the bucket plus what flowed in |
| `TokenBucket.WindowBound` | server/middleware/ratelimit.go:52-69 | Any closed window passes at most the capacity plus the inflow during it, whatever came before |
| `Gcra.StepIsTake` | server/middleware/ratelimit.go:39-47 | The admission test holds exactly if the bucket `burst - max(0, tat - now) / interval` holds a whole token, and an admission takes one |
| `Gcra.ScriptIsTokenBucket` | server/middleware/ratelimit.go:25-49 | On every ordered request sequence, with lost requests and any burst, the decisions without expiry are those of the token bucket |
| `Gcra.FreshKeyIsFullBucket` | server/middleware/ratelimit.go:31-49 | A fresh key decides as a full bucket of capacity `burst` refilled at `rate / period` |
| `GcraRuns.KeptExactly` | server/middleware/ratelimit.go:42-45 | A stored time outlives its debt if and only if `burst * period / rate <= ceil(2 * period)`, in the numbers of the configuration |
| `GcraRuns.ModestBurstIsKept` | server/middleware/ratelimit.go:42-45 | The expiry condition holds whenever `burst <= 2 * rate` |
| `GcraRuns.ExpiryIsHarmless` | server/middleware/ratelimit.go:31-45 | Under the condition the expiring store replies as one that never forgets, and stored times stay within their deadline |
| `GcraRuns.ExpiryHarmlessExactly` | server/middleware/ratelimit.go:31-45 | The two stores reply alike on every run if and only if `burst * period / rate <= ceil(2 * period)` |
| `GcraRuns.SecondBurstAdmitted` | server/middleware/ratelimit.go:33-45 | Without the condition a constructed run has two full bursts admitted |
| `GcraRuns.SecondBurstIsTooMuch` | server/middleware/ratelimit.go:33-45 | That run exceeds the window bound |
| `GcraRuns.WindowBoundedExactly` | server/middleware/ratelimit.go:39-49 | Every closed window of every run admits at most `burst + W * rate / period`, if and only if the condition holds |
| `GcraRuns.BurstIsTight` | server/middleware/ratelimit.go:41-49 | A fresh key admits `burst` simultaneous requests and denies the next with the rounded-up interval |
| `GcraRuns.SharedStoreTotal` | server/middleware/ratelimit.go:79-115 | In every run over any keys and faults, the admissions of one key under all its limits together in a window cost at most the window's length plus the longest span kept on that key |
| `GcraRuns.SharedStoreCharge` | server/middleware/ratelimit.go:79-115 | In every run interleaving any keys, limits, denials and calls failing before or after their effect, the admissions of one key under one limit in a window cost at most its length plus the longest span kept on that key |
| `GcraRuns.SharedStoreWindow` | server/middleware/ratelimit.go:79-115 | So one limit admits at most the inflow of the window stretched by that span; `burst + W * rate / period` when the span is its own |
| `GcraRuns.LaterAdmission` | server/middleware/ratelimit.go:39-49 | After a denial a later request is admitted exactly from `allow_at` on, or once the key is gone |
| `GcraRuns.RetryAfterIsExact` | server/middleware/ratelimit.go:39-49 | A denial returns `r >= 1`, the true wait rounded up; with nothing admitted meanwhile, waiting `r` seconds suffices, and under the condition admission starts exactly at `allow_at` |
| `GcraRuns.RetryPromiseExactly` | server/middleware/ratelimit.go:41-49 | Waiting the returned time leads to admission from every state if and only if `burst >= 1` |
| `Keys.KeysAreDistinct` | server/middleware/ratelimit.go:79-87 | HTTP user and ip, gRPC user and ip and idempotency keys coincide only for the same kind and identity |
| `Keys.ScriptNeverMeetsALock` | server/middleware/idempotency.go:42-48 | Over the shared store a call errs only if its request was lost or its command is one Redis refuses; a lost request and a refused lock always err: no lock is ever read as a time |
| `RateLimiter.VerdictsExactly` | server/middleware/ratelimit.go:90-115 | In every run, each request is served if it saw an admission, gets 429 with `r` if and only if it saw the number `r >= 0`, and otherwise is served or refused by the fallback bucket |
| `RateLimiter.FallbackIsBucket` | server/middleware/ratelimit.go:92-104 | Requests served by the fallback are those a bucket grants to the requests that saw Redis fail |
| `RateLimiter.FallbackWindow` | server/middleware/ratelimit.go:52-104 | All identities of all middlewares of a process together pass at most `2 * burst + 2 * rps * W` fallback requests in a window, sized by the first middleware; a negative burst counts as none |
| `RateLimiter.FallbackDoublesExactly` | server/middleware/ratelimit.go:64-68 | The fallback holds twice the burst; it refills at twice the limit's rate if and only if the period is one second, and faster if and only if it is longer |
| `RateLimiter.IdentityWindow` | server/middleware/ratelimit.go:79-115 | One identity gets under one limit at most its GCRA bound plus that amount, over any alternation of Redis up and down, with other middlewares, limits and processes on the same key |
| `RateLimiter.GrpcWindow` | server/middleware/grpc_ratelimit.go:22-63 | A gRPC identity gets under one limit at most its GCRA bound plus one pass per call of its own that saw Redis fail, with any limits on its key |
| `RateLimiter.Emergency.Init` | server/middleware/ratelimit.go:52-69 | Only the first middleware of a process sizes the fallback limiter, which starts full at twice its burst; later calls change nothing |
| `RateLimiter.Middleware.constructor` | server/middleware/ratelimit.go:63-69 | A middleware keeps its own limit and shares the fallback limiter of the process |
| `RateLimiter.Emergency.Allow` | server/middleware/ratelimit.go:95-99 | Takes from a bucket of twice the burst refilled at twice the rate per second |
| `RateLimiter.Middleware.Handle` | server/middleware/ratelimit.go:71-116 | One request under the key `rl:user:` or `rl:ip:`: new store, new bucket and verdict are those of the run above; a rate that is not positive changes nothing |
| `RateLimiter.Intercept` | server/middleware/grpc_ratelimit.go:22-64 | One gRPC call: key from principal, peer or fixed name, denial carries the script's number, a failing Redis lets it through |
| `Idempotency.AcquiredExactly` | server/middleware/idempotency.go:45-48 | A request acquires the lock if and only if it arrives, its expiry is accepted and no earlier acquisition is still in force |
| `Idempotency.AcquisitionsAreApart` | server/middleware/idempotency.go:45-48 | Two acquisitions of one key lie a whole expiry apart, with any faults and other keys; without expiry there is only one |
| `Idempotency.HandlersApartExactly` | server/middleware/idempotency.go:45-75 | Fail-closed handlers of one key never overlap if and only if they finish within the expiry or the expiry is not positive |
| `Idempotency.NeverTwiceExactly` | server/middleware/idempotency.go:45-75 | Over all runs at most one handler of a key executes if and only if the gate fails closed and the expiry is not positive |
| `Idempotency.VerdictExactly` | server/middleware/idempotency.go:45-75 | Every request whose call went well is executed if no lock is in force and a conflict otherwise; one that saw a failure is executed or told unavailable by the policy |
| `Idempotency.LockDecides` | server/middleware/idempotency.go:45-75 | From an acquisition until its lock expires, a request whose call went well executes if it is the acquiring one and is a conflict otherwise; one that saw Redis fail executes if and only if the gate fails open, else it is told unavailable |
| `Idempotency.SecondLockExactly` | server/middleware/idempotency.go:45-48 | Two undisturbed requests for a new key, by the expiry: refused if negative, but for minus one nanosecond; the second succeeds exactly from a positive expiry on |
| `Idempotency.ExactlyOnceExactly` | server/middleware/idempotency.go:45-75 | Among fail-closed requests within one lock's time exactly one executes if and only if the expiry is accepted and the first call to reach Redis gets its reply; otherwise none does |
| `Idempotency.LostReplyLocksOut` | server/middleware/idempotency.go:50-75 | When the acquiring call's reply is lost its client sees unavailable, every undisturbed retry within the lock's time is a conflict, and no handler executes |
| `Idempotency.ExecutionsInWindow` | server/middleware/idempotency.go:50-75 | A window of length W has at most `1 + floor(W / Expiry)` acquisitions and executions, one if the lock never expires and none if Redis refuses the expiry; fail-open adds at most one per Redis error |
| `Idempotency.GateMiddleware.Handle` | server/middleware/idempotency.go:35-78 | One request: new store and verdict; without a key it runs and Redis is not asked |
| `Retry.ProcessWithRetry` | messaging/consumer.go:149-222 | The loop computes the outcome function `Process` on every environment |
| `Retry.ProcessIsExact` | messaging/consumer.go:149-222 | Each verdict, cancellation and kill included, by an if-and-only-if on the environment; at most `MaxRetries` handler calls, none after a cancelled context; the dead-letter queue tried once, exactly after `MaxRetries` failures |
| `Retry.OutcomeIsDetermined` | messaging/consumer.go:149-222 | Those conditions leave no choice: verdict, handler calls and dead-letter tries follow from the environment |
| `Retry.StrictNilMeansSafe` | messaging/consumer.go:167-204 | Limited retries end; strict mode returns nil only after a success or a dead-letter acknowledgement; without a limit nil means success |
| `Retry.SettlesWithinFates` | messaging/consumer.go:167-204 | A record ends handled; with limited retries also dead-lettered if there is a producer, or dropped if permissive |
| `Retry.FatesAreMet` | messaging/consumer.go:155-204 | Each of those fates is met in some environment, so the set is exact |
| `Retry.CutsAreOutcomes` | messaging/consumer.go:153-165 | The process can be killed inside each handler call it makes and before the first |
| `Retry.WaitsAreBackoffs` | messaging/consumer.go:212-220 | The waits are the computed backoffs in order, as many as the handler calls when the loop was left in or after a wait and one fewer otherwise |
| `Retry.BackoffExactly` | messaging/consumer.go:215-219 | In wrapping int64 arithmetic the k-th wait is `min(Initial * 2^k, Max)` for all k, if and only if `Initial <= Max < 2^62` |
| `Retry.BackoffAboveMaximum` | messaging/consumer.go:215-219 | An initial backoff above the maximum is waited once; every later wait is the maximum, if and only if the initial one is below `2^62` ns |
| `Retry.DoublingOverflows` | messaging/consumer.go:216-219 | With a maximum of `2^62` or more some wait departs from the formula |
| `Retry.WaitsDouble` | messaging/consumer.go:150-220 | Every processing waits by the formula and never shorter than before |
| `Retry.WaitBeforeDlq` | messaging/consumer.go:150-220 | Before the dead-letter queue there are `MaxRetries - 1` waits whose sum is the geometric-then-constant closed form, at most that many maxima |
| `Consumer.KafkaConsumer.constructor` | messaging/consumer.go:48-82 | Zero backoffs become 100 ms and 30 s, an empty dead-letter topic with limited retries becomes the topic with `.dlq`; the client fetches from the committed offsets |
| `Consumer.KafkaConsumer.HandleRecord` | messaging/consumer.go:126-139 | One record: settle, then commit and go on even if the commit had no effect; any other verdict stops |
| `Consumer.KafkaConsumer.Start` | messaging/consumer.go:84-142 | The nested poll and record loops compute the session function from the client's fetch position; when the loop is left the position is past the whole fetch |
| `Consumer.EveryRunIsSafe` | messaging/consumer.go:92-141 | Over every life with failures, crashes and restarts: offsets below the watermark are settled, fates are allowed, the handler first sees a record after its predecessor was settled, commits strictly rise, nothing below a commit is delivered again, and the watermark is the last commit |
| `Consumer.KilledAnywhere` | messaging/consumer.go:84-222 | Every prefix of the history of a life is the history of a life, so the lives above include a crash after each event |
| `Consumer.CommittedMeansSettled` | messaging/consumer.go:126-139 | Every committed offset was last handled or, with limited retries, dead-lettered or in permissive mode dropped |
| `Consumer.RecordSafe` | messaging/consumer.go:126-139 | A record that does not settle ends the session; otherwise everything handed out so far is settled before the next record is looked at |
| `Consumer.GapIsLost` | messaging/consumer.go:126-139 | A record behind the fetch position that was not settled is lost by the next commit on its partition |
| `Consumer.GoOnExactly` | messaging/consumer.go:92-141 | From every safe state, all ways of polling on lose nothing if and only if everything handed out is settled |
| `Consumer.FailedPollExactly` | messaging/consumer.go:94-101 | At every point of a life nothing can be lost after a failed poll, however the session goes on, if and only if the records it passed over had all been settled; with none ahead settled, if and only if it passed over none |
| `Consumer.SecondStartExactly` | messaging/consumer.go:84-142 | After a first `Start` that returned or panicked, starting the same client again loses nothing if and only if it returned nil |
| `Consumer.FatesDifferExactly` | messaging/consumer.go:126-139 | For every configuration, some life settles one record twice with different fates if and only if retries are limited and the consumer is permissive or has a dead-letter producer |
| `Consumer.CleanFetchAdvances` | messaging/consumer.go:103-140 | When all records settle and all commits apply, a fetch moves the watermark past all its records |
| `Consumer.RecordExactly` | messaging/consumer.go:126-139 | One record adds its handler calls, its settlement and its commit to the history, moves position and watermark accordingly, and ends the session exactly if it does not settle or the process dies |
| `Consumer.FetchExactly` | messaging/consumer.go:103-140 | A fetch goes on past failed commits and ends at the first record that is not passed, with that record's error; the client is past all its records, and the watermark is one past the last record whose commit took effect, or unchanged |
| `Consumer.BatchesDoNotMatter` | messaging/consumer.go:92-141 | A session has the history and the commits of one fetch of all its records, and ends as that fetch does or, when all are passed, with nil exactly if a poll was cancelled |
| `Audit.NothingAcceptedIsLost` | audit/async_writer.go:52-76 | In every interleaving accepted events in order are tried, in hand, then buffered; the buffer stays within capacity; nil means exactly one event, an error none; once `Close` returned all were tried |
| `Audit.DropsAreConserved` | audit/async_writer.go:78-98 | Totals swapped out plus the counter equal the increments modulo 2^64, and at quiescence those are the calls that returned an error |
| `Audit.ReportsAreExact` | audit/async_writer.go:78-98 | In every interleaving each warning reports the number of increments since the previous swap, and the counter those since the last, modulo 2^64 |
| `Audit.WorkerCanExit` | audit/async_writer.go:101-110 | From a closed channel the worker can reach its end by its own steps, losing nothing |
| `Audit.CloseCanReturn` | audit/async_writer.go:112-118 | From every state of every run each `Close` call can still return with every accepted event tried |
| `Audit.SelectExactly` | audit/async_writer.go:52-76 | While the channel is open a call can be accepted if and only if there is room, and a non-blocking one can give up if and only if the channel holds the asked-for number of events, 1024 by default |
| `Audit.SendCanSucceed` | audit/async_writer.go:57-76 | While the channel is open a sending call can still be accepted by its own step and the worker's alone |
| `Audit.PanicExactly` | audit/async_writer.go:52-118 | Once the channel is closed, a call can still panic if and only if it is sending; a new one can after it begins |
| `Audit.NonBlockingOnlyPanics` | audit/async_writer.go:66-75 | A non-blocking call that is sending when the channel is closed never returns |
| `AuditWarnings.UnracedWarningsAreApart` | audit/async_writer.go:87-98 | In every interleaving where no two calls are between test and swap at once, warnings are more than a minute apart |
| `AuditWarnings.UnracedWarningsInWindow` | audit/async_writer.go:87-98 | In such interleavings a window of W minutes holds at most `1 + W` warnings |
| `AuditWarnings.LastLogIsAWarning` | audit/async_writer.go:81-90 | In every interleaving the time tested against is the epoch, or the time of a warning that is out or about to be |
| `AuditWarnings.RacingDropsWarnTwice` | audit/async_writer.go:79-98 | From any state, two calls about to drop can both warn at one moment, reporting all pending drops and zero |
| `AuditWarnings.RaceIsReachable` | audit/async_writer.go:30-98 | For every buffer size, strategy and start time, some run ends with exactly two warnings of one moment, reporting two and zero |
| `AuditWarnings.OneWarningExactly` | audit/async_writer.go:78-98 | With no call between increment and return, all interleavings of the dropping calls while the clock stands add at most one warning if and only if at most one call is dropping or the last warning is at most a minute old |
| `AuditWarnings.UninterruptedIsDrop` | audit/async_writer.go:78-98 | The atomic steps of one call taken without interruption are one undisturbed drop |
| `AuditWarnings.WarningsAreApart` | audit/async_writer.go:87-90 | Without overlap, any two warnings are more than a minute apart |
| `AuditWarnings.WarningsInWindow` | audit/async_writer.go:87-90 | A window of W minutes holds at most `1 + W` warnings |
| `AuditWarnings.WarningsAreExact` | audit/async_writer.go:79-93 | Each warning reports exactly the drops since the previous one, its own included |
| `AuditWarnings.AsyncLogger.constructor` | audit/async_writer.go:30-44 | A size that is not positive becomes 1024; the last warning is dated to the epoch |
| `AuditWarnings.AsyncLogger.HandleDrop` | audit/async_writer.go:78-99 | Counter, time and warnings change as one undisturbed drop |
| `AuditWarnings.AsyncLogger.Log` | audit/async_writer.go:52-76 | The event is appended, or counted as dropped, or the call waits and changes nothing: which one, by an if-and-only-if for either strategy |
| `AuditContexts.BlockingDropsWereCancelled` | audit/async_writer.go:57-65 | In every interleaving of the blocking strategy a call gives up only after its own context ended |
| `AuditContexts.BlockingDropExactly` | audit/async_writer.go:57-65 | At every moment of every such run, whatever the channel holds, a sending call can still return an error with its context left alone, if and only if that context is done |
| `AuditContexts.BlockingLosesNothing` | audit/async_writer.go:57-65 | While no context ends, the blocking strategy counts no drop, issues no warning and returns no error; before `Close` no call panics either |
| `AuditContexts.NonBlockingLosesNothing` | audit/async_writer.go:66-75 | While the channel never holds the asked-for number of events, the non-blocking strategy counts no drop, issues no warning and returns no error |
| `AuditWarnings.AsyncLogger.Drain` | audit/async_writer.go:101-110 | The worker tries every event left, in order |
| `Jwks.LastValidEntryWins` | crypto/jwks_client.go:136-147 | The new cache holds exactly, for each key id, the last usable entry of the response |
| `Jwks.CachingClient.ToRsaPublicKey` | crypto/jwks_client.go:161-179 | For any entry, fails exactly if modulus or exponent does not decode; otherwise the big-endian modulus and the folded exponent |
| `Jwks.CachingClient.FetchKeys` | crypto/jwks_client.go:115-159 | Succeeds exactly if some entry is an RSA signing key with an id whose numbers decode, then replaces the cache whole; a failure changes nothing |
| `Jwks.CacheIsOneResponse` | crypto/jwks_client.go:108-232 | In every interleaving at most one request is out, and the cache is the non-empty valid-key map of one response, installed in fetch-start order exactly when the fetch succeeded; a key handed out was cached during the call; a lookup refreshes only after a miss, fails only with its fetch, and reports an unknown id only after reading a version that lacks it and is no older than the fetch in flight when it began |
| `Jwks.CachedKeyIsFound` | crypto/jwks_client.go:208-214 | In every interleaving a lookup whose key is cached from its start on hands it out, whatever the server answers |
| `Jwks.LookupCanEnd` | crypto/jwks_client.go:216-230 | From every state of every interleaving a lookup that has begun can still end |
| `Jwks.RefreshMayPredateLookup` | crypto/jwks_client.go:216-230 | A lookup can give up after a refresh that was requested before it began |
| `Jwks.StaleJoinExactly` | crypto/jwks_client.go:216-230 | In every interleaving a missed lookup waits for a fetch older than itself if and only if the newest fetch at its start is still in flight when it joins |
| `Exponent.FoldExponent` | crypto/jwks_client.go:173-176 | For any length, the low 64 bits of the big-endian value read as a signed integer |
| `Exponent.FoldStep` | crypto/jwks_client.go:175-175 | Shift and bitwise or advance the value by one byte modulo 2^64 |
| `Exponent.ExponentExactly` | crypto/jwks_client.go:173-178 | The result is the Base64urlUInt value (section 2 of RFC 7518) if and only if that is below 2^63 |
| `Exponent.ExponentRoundTrip` | crypto/jwks_client.go:173-178 | The fold undoes the shortest big-endian encoding of every value below 2^63 |

## Left out

- AuditWarnings.AsyncLogger.Log: models one caller at a time; concurrent callers are the subject of module `Audit`.
- Audit.NothingAcceptedIsLost: whether an encode succeeds is not modelled; an event counts as tried either way.
- Consumer.KafkaConsumer.Start: a poll cut short by cancellation is taken to carry no records.
- Consumer.EveryRunIsSafe: offsets without gaps; a log with compacted or transactional gaps is not modelled.
- Floating-point rounding in the script, and Redis's own clock resolution.
- Client libraries (Kafka, Redis, HTTP, gRPC, PostgreSQL), TLS and connection pools: they appear only as environment steps.
- JWT parsing, signature and claim checks, the staleness log line, bcrypt and base64 decoding.
- Tracing, logging, metrics, response envelopes, error codes, context helpers, health checks and configuration loading: they do not affect the decisions modelled.
- `getRealIP`, panic recovery and authentication plumbing: thin.
- `ConsumerManager` shutdown: it depends on what a closed Kafka client reports from polling.
