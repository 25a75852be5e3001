# goplatform, modelled in Dafny

goplatform is a Go SDK for microservices. This project models the parts of it that are state machines or
protocols and proves what they keep over all runs. Every call into a foreign client (Temporal, a store, a broker,
a registry, a file system, a log sink) becomes an outcome chosen by the environment, and the theorems quantify
over all such choices.

| file | part of goplatform |
|---|---|
| `Saga.dfy`, `SagaTheorems.dfy` | the saga executor: forward steps, sequential and parallel compensation |
| `Idempotency.dfy`, `IdempotencyTheorems.dfy` | the idempotency middleware as a protocol of concurrent requests over a store with expiry |
| `KafkaConsumer.dfy`, `KafkaTheorems.dfy` | the Kafka consume loop under cumulative commits, with crashes at any step |
| `NatsDelivery.dfy`, `NatsShutdown.dfy` | JetStream delivery and redelivery; the Stop/callback protocol |
| `Lifecycle.dfy`, `LifecycleTheorems.dfy` | `App.Run` with its four return paths |
| `RoundRobin.dfy`, `Resolver.dfy`, `ResolverPicks.dfy`, `ResolverConcurrency.dfy`, `ResolverFreshness.dfy`, `ResolverSteps.dfy` | the service resolver: its cache, how old a picked list can be, and fairness of selection on a wrapping ticket |
| `EnvKeys.dfy`, `ConfigLoader.dfy`, `ConfigReload.dfy` | the configuration loader: key codec, layered merge, reload under a lock |
| `LogHandlers.dfy`, `SwapHandlers.dfy` | the fan-out and the swappable log handler |
| `KafkaHeaders.dfy`, `KafkaProducer.dfy` | the header pipeline from producer to consumer; Publish and PublishBatch |
| `Common.dfy` | options, reversal, permutations |

## How the model is built

Code that changes fields is a class whose methods are proved against specification functions or against steps of
a state machine; loops are loops. Concurrent protocols are machines: `Apply` gives the effect of one atomic step
(one store call, one critical section, one atomic instruction), `Run` or `Exec` folds it over a list of events, and
a theorem about "every run" is a lemma about every list of events that can happen.

How the imperative code is tied to its machine: the Kafka loop and the idempotency handler carry a ghost trace that
is proved to be a run; a NATS delivery carries its acts, which `FollowIsARun` turns into a run; the critical sections
of the NATS subscriber and of the resolver (both lookups, the read, the install and the ticket) are proved to be
single steps, on objects that stand one-to-one for the machine's ids; and `ReloadIsARun` gives the run of a
configuration reload.

A header list, a configuration and a tree of handlers are values. Time is an abstract number, and an expiry or a
cancelled wait is an event.

## What is not as documented

The model follows the code. Where the code and its own words disagree, the disagreement is a lemma, with the exact
condition under which the words hold.

- `pkg/broker/kafka/consumer.go:436` says an offset is not committed after a failed dead-letter publish "to prevent
  data loss". The loop goes on, and the next commit moves the watermark past that offset. `LossExactly` names the
  lost offsets of every run, and `NeverLosesIff` the configurations that lose none in any run: no dead-letter queue
  and no retries. A wait that is cancelled shows the loop's context to be done, so losing a message that way also
  needs the client to hand out and commit a later one on that context; with a client that never does, the
  configurations that lose none are those without a dead-letter queue and with a retry count that is not negative
  (`NeverLosesOnLiveContextIff`). `WatermarkSafe` gives the condition on one run.
- A negative `maxRetries` is accepted by `WithRetry` and means that no attempt is made, yet the message is
  committed or acknowledged (`NegativeRetriesLoseMessage`, `NegativeRetriesAckUnhandled`).
- `pkg/broker/nats/subscriber.go:282-283` says the guard prevents a race with Stop, and line 202 that Stop waits for
  handlers in flight. A callback can pass the guard between the wait and the clearing of the connection and outlive
  Stop (`HandlerCanOutliveStop`). `AliveAfterStop` says exactly which handlers are alive once a Stop has returned, and
  `StopWaitsForHandlers` exactly when there is none.
- `pkg/config/loader.go:49-50` gives `MYAPP_SERVER_ADDR` as the variable for `server.addr`; the code at lines 108-117
  separates levels, the prefix included, with `__`. That spelling never sets its key, for no prefix and no path
  (`DocumentedNameNeverSets`, and `DocumentedExample` for the variable named there). The spelling with `__` is read
  back exactly on the lower-case paths that `Safe` describes (`RoundTrip`); every unsafe path shares its variable with a
  safe one (`UnsafePathsCollide`), and a lower-case path is the only safe reading of its variable exactly when it is
  safe (`OnlyReadingIffSafe`).
- Parallel compensation is documented as an alternative for independent compensations. For given steps it is as good
  as sequential compensation in every saga made of them, in every completion order and from every world, exactly when
  their compensations commute pairwise (`CommuteIffAlwaysMatches`), and `ParallelNeedsCommutation` shows reversible
  steps whose world the sequential form restores and the parallel form does not.
- `pkg/broker/kafka/producer.go:216-217` says a batch is written wholly or not at all. The client may accept part of a
  write that fails. Whatever the client does, the words hold exactly for a batch that a hook stops and for one of at
  most one message (`AtomicIff`).
- A batch makes and writes what single publishes do exactly when the hooks together ignore the span in their context,
  which the two methods set differently, and leave earlier messages of the batch alone, whose payloads are read only
  after the last hook (`StagesAgreeIff`; `SharedPayloadOverwritten` has a hook that does not).
- The remote span a consumer extracts is the producer's own exactly when that span has a trace state or the user's
  headers hold none that parses to one (`SpanRoundTrip`): a stale `tracestate` header set by the user is passed on.
- The resolver's selection is fair for ever exactly when the number of instances divides 2^64
  (`FairForeverIffDivides`). Otherwise every wrap of the ticket adds to the difference between two positions: it is
  at most k + 1 across k wraps (`NearlyFairAcrossWraps`), and for every such number of instances and every k > 0
  that is reached (`DriftIsReached`).
- `pkg/server/idempotency.go:41` gives 409 as the answer while a key is still processing. A key whose entry has not
  expired is left processing with no request to complete it exactly when its handler has panicked, the save of its
  response has failed without taking effect (line 88 ignores that error, and the response is sent all the same), or the
  SetNX that inserted its entry has returned an error (`StuckIff`). Then until the entry expires every later request for
  the key gets a conflict or a store error (`StuckStays`); otherwise a processing entry has exactly one request still to
  complete it (`ConflictIsInProgressIff`). With expiries, which a request can outlive, a key whose entry
  says processing is stuck exactly when every request that won it has panicked or tried to save (`StuckByCount`).

## Model

| member | source | states |
|---|---|---|
| Saga.Saga.constructor | pkg/workflow/saga/saga.go:78-84 | a new saga has no steps and the given options |
| Saga.Saga.AddStep | pkg/workflow/saga/saga.go:92-98 | a step is appended, nothing else changes |
| Saga.Saga.Execute | pkg/workflow/saga/saga.go:106-133 | world and result are those of the specification function for every schedule of the workers |
| Saga.Saga.CompensateCompleted | pkg/workflow/saga/saga.go:136-145 | nothing for no steps, otherwise the chosen form of compensation |
| Saga.Saga.CompensateSequential | pkg/workflow/saga/saga.go:148-167 | reverse order, skipping nil compensations, stopping at the first error unless told to go on |
| Saga.Saga.CompensateParallel | pkg/workflow/saga/saga.go:170-194 | the world left by the completion order of the futures, and the errors in scheduling order |
| Saga.Collect | pkg/workflow/saga/saga.go:184-193 | the errors of the futures, in scheduling order whatever the completion order |
| Saga.RunToCompletion | pkg/workflow/saga/saga.go:179-181 | the workers run every scheduled compensation once, in any order |
| Saga.MoveToFront | pkg/workflow/saga/saga.go:170-194 | with commuting compensations, completing any one of them first changes neither world nor outcomes |
| Saga.CompletionOrderIrrelevant | pkg/workflow/saga/saga.go:170-194 | with commuting compensations all completion orders end in the same world with the same outcomes |
| Saga.FixedOutcomes | pkg/workflow/saga/saga.go:184-189 | if errors do not depend on the world, every completion order gives each compensation its own outcome |
| Saga.SequentialStep | pkg/workflow/saga/saga.go:150-162 | what one turn of the sequential loop adds to world and errors, for both policies |
| SagaTheorems.CommuteIffAlwaysMatches | pkg/workflow/saga/saga.go:53-59 | for given steps, parallel compensation gives the world and the errors of sequential continue-on-error for every list of completed steps of every saga made of them, every completion order and every world, exactly when their compensations commute pairwise |
| SagaTheorems.ExecuteExact | pkg/workflow/saga/saga.go:106-194 | Execute succeeds exactly when every action does; otherwise it names the first failing step and its cause, and from the world that left it has run, each on the world the one before it left, the compensations below that step: downwards through all of them or, unless told to go on, to the first that fails, or in parallel all of them as they complete; it reports exactly those that failed, and at most one when it stops at errors |
| SagaTheorems.ParallelRefinesSequential | pkg/workflow/saga/saga.go:148-194 | with commuting compensations, parallel compensation in any completion order equals sequential continue-on-error in world and error list |
| SagaTheorems.ParallelReportsSequentialErrors | pkg/workflow/saga/saga.go:148-194 | without commutation, for every assignment of outcomes, both forms attempt the same compensations and report the same list |
| SagaTheorems.StopOnErrorReportsFirst | pkg/workflow/saga/saga.go:158-160 | stop-on-error reports exactly the first error continue-on-error would report, and the same world if there is none |
| SagaTheorems.SequentialRestores | pkg/workflow/saga/saga.go:148-167 | reverse compensation of reversible steps returns to the initial world with no error |
| SagaTheorems.RollbackRestoresWorld | pkg/workflow/saga/saga.go:106-167 | any failed Execute of reversible steps, of any length and failing at any step, leaves the initial world and no compensation error; in parallel form if the compensations commute |
| SagaTheorems.ParallelNeedsCommutation | pkg/workflow/saga/saga.go:170-194 | reversible steps which, completing in step order, the sequential form restores from every world and the parallel form from none |
| SagaTheorems.StepOrderIsASchedule | pkg/workflow/saga/saga.go:179-185 | the order of the steps is an order in which the scheduled futures may complete |
| Idempotency.Collapse | pkg/server/idempotency.go:75-78 | one value is kept per header name, the first under its canonical form, whatever order the map is visited in |
| Idempotency.WriteHeaders | pkg/server/idempotency.go:91-93 | the writer ends with what setting each captured header once, in some order, leaves |
| Idempotency.WriteOrderIrrelevant | pkg/server/idempotency.go:75-95 | captured headers never clash under their canonical names: every visiting order leaves the writer the first value of each |
| Idempotency.ReplayWritesTheSameHeaders | pkg/server/idempotency.go:64-117 | the original response and a replay leave the same headers, multi-valued ones collapsed, whatever orders they visit them in |
| Idempotency.SentHeadersExact | pkg/server/idempotency.go:75-93 | under each canonical name of a captured header the caller is sent its first value, and every other header of the writer is left alone |
| Idempotency.CanonicalIgnoresCase | pkg/server/idempotency.go:75-78 | header names of token characters are the same header exactly when they differ in case only |
| Idempotency.Store.SetNX | pkg/server/idempotency.go:58-62 | inserts only if absent; an error may or may not have taken effect |
| Idempotency.Store.Get | pkg/server/idempotency.go:101-105 | the present entry |
| Idempotency.Store.Set | pkg/server/idempotency.go:86-88 | overwrites; an error may or may not have taken effect |
| Idempotency.Serve | pkg/server/idempotency.go:49-124 | the handler function on one request is a run of the protocol; for every combination of store outcomes whether it answers with what its handler wrote, a replay, a conflict, a store error or not at all, the status, headers and body it sends, and the entry it leaves; without a key it passes through and leaves the store alone |
| Idempotency.ServeFirst | pkg/server/idempotency.go:64-97 | the first request collapses its handler's headers and sends the handler's status, or 200, and body whatever happens to the save, which is stored if it takes effect |
| Idempotency.ServeDuplicate | pkg/server/idempotency.go:99-123 | a request that finds the key replays a completed response, gets 409 exactly while the entry is none, and 500 exactly when the store fails or the entry is gone |
| Idempotency.ServeTwice | pkg/server/idempotency.go:64-117 | a second request for a key, with no fault and no expiry in between, is sent exactly the status, headers and body the first was, whatever its own handler would do |
| IdempotencyTheorems.BudgetSpent | pkg/server/idempotency.go:58-97 | no step gives a key more handler runs to come, except its expiry, which gives one |
| IdempotencyTheorems.HandlerRunsAtMostOncePlusExpiries | pkg/server/idempotency.go:49-124 | in every interleaving of any number of requests, with store errors, failed saves and panics, a key's handler runs at most once plus the number of its expiries |
| IdempotencyTheorems.BoundIsReached | pkg/server/idempotency.go:43-44 | for every number of expiries some run reaches that bound, each handler run answering as it chooses |
| IdempotencyTheorems.AgreementHolds | pkg/server/idempotency.go:64-117 | in every run every stored or carried response was produced by a handler run for the same key |
| IdempotencyTheorems.RepliesAgree | pkg/server/idempotency.go:49-124 | every keyed reply is the store error, the conflict, or a response some handler run for that key produced |
| IdempotencyTheorems.DuplicatesAnswered | pkg/server/idempotency.go:99-123 | in every run a duplicate is answered with the stored response exactly when there is one, with a conflict exactly while the entry says processing, and with a store error exactly when the entry has expired |
| IdempotencyTheorems.OwnResponse | pkg/server/idempotency.go:64-97 | a request that ran the handler carries and answers with that response and no other |
| IdempotencyTheorems.AnswersAgreeWithoutExpiry | pkg/server/idempotency.go:37-44 | with no expiry of the key all its answers are one and the same response |
| IdempotencyTheorems.AnswersAtMostOnePlusExpiries | pkg/server/idempotency.go:37-44 | in every run a key has at most one different answer more than it had expiries |
| IdempotencyTheorems.AnswersReached | pkg/server/idempotency.go:43-44 | for every number of expiries some run has that many different answers and one more |
| IdempotencyTheorems.StuckIff | pkg/server/idempotency.go:41-97 | with no expiry of the key so far, its entry says processing and no request is left to complete it exactly when its handler has panicked, its save has failed without taking effect, or the SetNX that inserted it has returned an error |
| IdempotencyTheorems.ConflictIsInProgressIff | pkg/server/idempotency.go:41 | an entry that says processing has exactly one request still to complete it exactly when none of the three has happened |
| IdempotencyTheorems.PendingCount | pkg/server/idempotency.go:58-97 | in every run, expiries included, the requests still to save are as many as have won the key and neither panicked nor tried to save |
| IdempotencyTheorems.StuckByCount | pkg/server/idempotency.go:41-97 | in every run a key whose entry says processing is stuck exactly when every request that won it has panicked or tried to save |
| IdempotencyTheorems.StuckStays | pkg/server/idempotency.go:99-123 | from then on, until the entry expires, the handler does not run and every later request gets a conflict or a store error, whatever else goes on |
| IdempotencyTheorems.KeysDoNotInterfere | pkg/server/idempotency.go:56-62 | what a run does to one key is what it would do with the events of all other keys removed |
| KafkaConsumer.Reader.FetchMessage | pkg/broker/kafka/consumer.go:346 | hands out the next offset without moving the watermark |
| KafkaConsumer.Reader.CommitMessages | pkg/broker/kafka/consumer.go:471 | cumulative: the watermark becomes the offset plus one, also when an error hides a commit that was applied |
| KafkaConsumer.InvokeWithRetries | pkg/broker/kafka/consumer.go:393-426 | between one and 1 + maxRetries calls, stopping at the first success or at a cancelled wait, as steps of the machine |
| KafkaConsumer.ProcessMessage | pkg/broker/kafka/consumer.go:362-479 | is a run of the machine from fetch to commit; for every script of outcomes how often the handler is called, when the dead-letter queue is used, that the offset is committed exactly when the handler succeeded, no attempt was to be made, or all failed and the message was dead-lettered or dropped, and the commit works, and how the message is settled |
| KafkaConsumer.ConsumeLoop | pkg/broker/kafka/consumer.go:344-358 | the loop over any number of messages is a run of the machine that processes each as ProcessMessage does, one offset after the other, whatever became of the one before |
| KafkaConsumer.ConsumedExact | pkg/broker/kafka/consumer.go:344-479 | over any number of messages the watermark ends behind the last one whose commit is reached and works, and nowhere else |
| KafkaConsumer.ConsumedSettles | pkg/broker/kafka/consumer.go:344-479 | each message, at its own offset, is settled as its script says |
| KafkaConsumer.ApplyMiddleware | pkg/broker/kafka/consumer.go:484-489 | the first middleware ends up outermost |
| KafkaConsumer.WrappedInOrder | pkg/broker/kafka/consumer.go:484-489 | a message enters the middlewares in their order, reaches the handler once, and leaves them in the reverse order |
| KafkaTheorems.LossExactly | pkg/broker/kafka/consumer.go:344-479 | in every run with crashes and restarts, the unsettled offsets below the watermark are exactly those given up and then overtaken by a commit before a restart |
| KafkaTheorems.WatermarkSafe | pkg/broker/kafka/consumer.go:344-479 | with maxRetries >= 0, no failed dead-letter publish and no message fetched after a cancelled wait before a restart, every offset below the watermark was handled, dead-lettered or dropped |
| KafkaTheorems.NeverLosesIff | pkg/broker/kafka/consumer.go:344-479 | a configuration loses no message in any run exactly when maxRetries is 0 and no dead-letter publisher is set |
| KafkaTheorems.NeverLosesOnLiveContextIff | pkg/broker/kafka/consumer.go:344-479 | if nothing is fetched on a context known to be done, exactly when maxRetries >= 0 and no dead-letter publisher is set |
| KafkaTheorems.LostForever | pkg/broker/kafka/consumer.go:344-358 | an offset lost below the watermark is never fetched again, restarts included |
| KafkaTheorems.SettledAsConfigured | pkg/broker/kafka/consumer.go:428-465 | messages are dropped only without a dead-letter queue and dead-lettered only with one |
| KafkaTheorems.DLQFailureLosesMessage | pkg/broker/kafka/consumer.go:435-447 | for every configuration with a dead-letter publisher, a run in which one failed publish to it loses a message |
| KafkaTheorems.CancelledWaitLosesMessage | pkg/broker/kafka/consumer.go:418-423 | for every configuration with retries, a run in which one cancelled wait, and a later fetch and commit that get through on the done context, lose a message |
| KafkaTheorems.NegativeRetriesLoseMessage | pkg/broker/kafka/consumer.go:395-396 | for every negative maxRetries a run that commits an unhandled message |
| NatsDelivery.InvokeWithRetries | pkg/broker/nats/subscriber.go:364-395 | between one and 1 + maxRetries calls, stopping at the first success, as steps of the machine |
| NatsDelivery.RouteAndAnswer | pkg/broker/nats/subscriber.go:397-451 | publishes to the dead-letter queue exactly when the attempts failed and one is configured; exactly when it Naks and when it Acks |
| NatsDelivery.ProcessMessage | pkg/broker/nats/subscriber.go:343-452 | one delivery: number of calls, exactly when it publishes to the dead-letter queue, Naks and Acks; never both answers, and one of them while js is set |
| NatsDelivery.LeavesPendingOnlyWhenSettled | pkg/broker/nats/subscriber.go:343-452 | over all deliveries, redeliveries, crashes and failed answers, a message leaves the pending set only after its handler or its dead-letter publish succeeded |
| NatsDelivery.CrashEnds | pkg/broker/nats/subscriber.go:343-452 | a delivery whose process has crashed does nothing more |
| NatsDelivery.EachDeliveryCounted | pkg/broker/nats/subscriber.go:364-451 | a finished delivery made 1 to 1 + maxRetries calls, at most one dead-letter publish after all of them, and exactly one answer while js stays set, whatever is interleaved with it |
| NatsDelivery.FollowIsARun | pkg/broker/nats/subscriber.go:343-452 | the acts of one delivery, as the code performs them, are those of a delivery in a run of the machine that ends where the code does |
| NatsDelivery.NegativeRetriesAckUnhandled | pkg/broker/nats/subscriber.go:366-367 | for every negative maxRetries a run that acknowledges an unhandled message |
| NatsShutdown.Subscriber.KeepSubscription | pkg/broker/nats/subscriber.go:327-329 | the new subscription is appended, nothing else changes |
| NatsShutdown.Subscriber.BeginStop | pkg/broker/nats/subscriber.go:205-213 | the first section of Stop is the machine's step: it takes the subscriptions and goes on exactly when connected |
| NatsShutdown.Subscriber.EnterCallback | pkg/broker/nats/subscriber.go:284-291 | the guard as one critical section is the machine's step: passes and counts exactly when connected |
| NatsShutdown.Subscriber.FinishCallback | pkg/broker/nats/subscriber.go:292 | leaving the wait group is the machine's step |
| NatsShutdown.Subscriber.ClearFields | pkg/broker/nats/subscriber.go:228-232 | the last section of Stop is the machine's step and clears connection, JetStream and subscriptions |
| NatsShutdown.WaitGroupCountsActive | pkg/broker/nats/subscriber.go:284-294 | in every interleaving the wait group equals the number of callbacks past the guard and not finished |
| NatsShutdown.ConnectionGoneOnceReturned | pkg/broker/nats/subscriber.go:204-232 | the connection is nil exactly when some Stop has cleared it |
| NatsShutdown.ActiveAfterWait | pkg/broker/nats/subscriber.go:222-223 | a handler running once a Stop has waited passed the guard after that wait |
| NatsShutdown.LateHandlerPassedInWindow | pkg/broker/nats/subscriber.go:204-232 | a handler alive after Stop returns met a connection at its guard after that Stop's wait and before its clearing of the connection, and has not finished |
| NatsShutdown.AliveAfterStop | pkg/broker/nats/subscriber.go:202-232 | once a Stop has returned, a handler is alive exactly when it entered in that window and has not finished |
| NatsShutdown.StopWaitsForHandlers | pkg/broker/nats/subscriber.go:202-232 | no handler is alive, and the wait group is zero, exactly when none entered in that window without finishing |
| NatsShutdown.HandlerCanOutliveStop | pkg/broker/nats/subscriber.go:281-283 | a run in which a handler outlives Stop |
| Lifecycle.App.constructor | pkg/platform/app.go:41-50 | an application starts with empty registries |
| Lifecycle.App.Register | pkg/platform/app.go:71-91 | fails exactly when the component's own name or, without one, the given name is taken, and then changes nothing; otherwise appends the component under that name; names stay unique |
| Lifecycle.App.Use | pkg/platform/app.go:95-100 | plugins are appended in order |
| Lifecycle.App.Lookup | pkg/platform/app.go:144-154 | finds the one component of that name exactly when it is registered |
| Lifecycle.App.HealthCheckers | pkg/platform/app.go:158-169 | exactly the registered components that are health checkers, by name |
| Lifecycle.App.InitPlugin | pkg/platform/app.go:213 | the registry after a plugin's own calls on the application |
| Lifecycle.App.InitPlugins | pkg/platform/app.go:210-216 | initialises in order and stops at the first failure |
| Lifecycle.App.Run | pkg/platform/app.go:186-323 | for every environment there is one of four paths, the first failure there is, and Run's events and result are those of that path on the registry the plugins leave |
| Lifecycle.RunInitialised | pkg/platform/app.go:218-322 | from the second snapshot on: one of three paths, with the events and the result of that path |
| Lifecycle.StartComponents | pkg/platform/app.go:249-272 | hooks and starts in order until the first failure, which is named exactly |
| Lifecycle.CallHooks | pkg/platform/app.go:252-261 | hooks in order up to and including the first that fails |
| Lifecycle.StopStarted | pkg/platform/app.go:234-247 | stops in reverse order, going on after errors and joining them all |
| Lifecycle.ClosePlugins | pkg/platform/app.go:311-319 | closes in reverse order, joining all errors |
| Lifecycle.Shut | pkg/platform/app.go:274-322 | what follows the last start, in order: after-start hooks, before-stop hooks, reverse stops, after-stop hooks with the joined stop error, reverse closes; and the joined result |
| LifecycleTheorems.TraceNames | pkg/platform/app.go:186-323 | for each of the four paths and each kind of event, exactly which names occur and in which order |
| LifecycleTheorems.InitsExact | pkg/platform/app.go:210-216 | the plugins are initialised in order, up to and including the one that fails |
| LifecycleTheorems.AttemptsExact | pkg/platform/app.go:249-272 | component after component: all its hooks in order, then its start; of an attempt that fails, the hooks up to the failing one, or all and the failing start |
| LifecycleTheorems.HooksExact | pkg/platform/app.go:274-309 | the phases of Run never mix; on shutdown the after-start, before-stop and after-stop hooks are each called once, in order, in their own phase, and on the other paths none is |
| LifecycleTheorems.StopsAndClosesExact | pkg/platform/app.go:234-319 | exactly the started components are stopped, last first, and on shutdown only the plugins closed, last first |
| LifecycleTheorems.StopsReverseStarts | pkg/platform/app.go:234-305 | on every path the Stop events are the reverse of the successful Start events |
| LifecycleTheorems.ClosesReverseInits | pkg/platform/app.go:210-216 | plugins are closed in reverse of their initialisation on the shutdown path and never on the abort paths |
| LifecycleTheorems.StoppedExactlyOnce | pkg/platform/app.go:250-303 | each started component is stopped exactly once; one whose hook or Start failed, and those after it, never |
| LifecycleTheorems.StartsFollowHooks | pkg/platform/app.go:251-264 | every Start directly follows all BeforeStart hooks for its component, in order, on every path |
| LifecycleTheorems.ResultExact | pkg/platform/app.go:255-322 | the leaves of Run's error tree are, in order and each under the name it belongs to, the aborting error, every stop error and on shutdown every close error; nil exactly when none occurred |
| LifecycleTheorems.AfterStopHooksSeeStopErrors | pkg/platform/app.go:296-309 | AfterStop hooks are handed exactly the stop errors |
| LifecycleTheorems.PluginsExact | pkg/platform/app.go:210-230 | the second snapshot holds the hooks registered before and by the plugins, each kind in order, and after the components registered before those the plugins register under names still free, in order, and no others |
| LifecycleTheorems.PluginComponentsRegistered | pkg/platform/app.go:210-230 | what a plugin registers during Init is in the registry the run works from |
| LifecycleTheorems.PluginComponentsRun | pkg/platform/app.go:218-303 | on the shutdown path every component a plugin registered was started and stopped |
| RoundRobin.FairWithoutWrap | pkg/discovery/resolver.go:122-123 | over any m picks from any counter value without a wrap each position is chosen floor(m/n) or ceil(m/n) times |
| RoundRobin.NearlyFairAcrossWraps | pkg/discovery/resolver.go:122-123 | across at most k wraps of the 64-bit ticket two positions differ by at most k + 1 |
| RoundRobin.FairForeverIffDivides | pkg/discovery/resolver.go:122-123 | selection is fair from every counter value for every number of picks exactly when n divides 2^64 |
| RoundRobin.UnfairAtWrap | pkg/discovery/resolver.go:122-123 | for every other n the picks around the wrap that break fairness |
| RoundRobin.DriftIsReached | pkg/discovery/resolver.go:122-123 | for every n that does not divide 2^64 and every k > 0, the picks across k wraps that reach the bound |
| Resolver.ServiceCache.PickFrom | pkg/discovery/resolver.go:100-124 | the part of Pick that works on one cache, with its five outcomes; a Discover error leaves the cache alone |
| Resolver.ServiceCache.ReadSection | pkg/discovery/resolver.go:100-103 | the list and whether it is fresh, read together |
| Resolver.ServiceCache.Take | pkg/discovery/resolver.go:122-123 | the counter goes up by one modulo 2^64 and the old value selects |
| Resolver.ServiceCache.Install | pkg/discovery/resolver.go:111-115 | list and update time are replaced together, the ticket stays |
| Resolver.Resolver.ReadLocked | pkg/discovery/resolver.go:177-183 | the first lookup |
| Resolver.Resolver.WriteLocked | pkg/discovery/resolver.go:185-195 | the second lookup and the creation: on any table, a cache that is there stays, and a missing one is created |
| Resolver.Resolver.GetOrCreateCache | pkg/discovery/resolver.go:176-196 | returns the service's one cache object and creates it only if it is missing from both lookups |
| Resolver.Resolver.Pick | pkg/discovery/resolver.go:97-124 | the pick and the new contents of the service's cache; every other service's cache, and every cache object, stays |
| Resolver.Resolver.InstallWatched | pkg/discovery/resolver.go:145-149 | a watcher's update reaches its own service's cache only |
| Resolver.CachedListWasInstalled | pkg/discovery/resolver.go:97-149 | in every run the cached list and its time were installed together by an earlier call |
| Resolver.PickedIsFresh | pkg/discovery/resolver.go:97-124 | a picked instance belongs to the list just discovered or to one installed less than the ttl before |
| Resolver.TicketCountsPicks | pkg/discovery/resolver.go:122 | the counter is the number of successful picks modulo 2^64 |
| ResolverPicks.CacheIsLastInstalled | pkg/discovery/resolver.go:97-149 | after any calls a cache holds the list last installed for its service, by a watcher or by a Pick that found none good enough, and its time |
| ResolverPicks.PickExact | pkg/discovery/resolver.go:97-124 | every Pick: asks Discover only if the list last installed is too old or empty, fails without its answer, finds nothing in an empty list, and otherwise returns the member that the number of successful picks before it, modulo 2^64, selects |
| ResolverPicks.PicksFair | pkg/discovery/resolver.go:97-124 | picks that choose from one list return each of its instances floor(m/n) or ceil(m/n) times while the ticket does not wrap |
| ResolverPicks.PicksNearlyFair | pkg/discovery/resolver.go:97-124 | across k wraps two instances are returned equally often up to k + 1 |
| ResolverFreshness.PickIsFresh | pkg/discovery/resolver.go:97-149 | whatever picks and watcher updates are interleaved, a pick chooses from the list its own Discover returned or from one that was installed, by a watcher or another pick, less than the ttl before it read the cache |
| ResolverSteps.ReadLocked | pkg/discovery/resolver.go:177-183 | the first lookup is the machine's step: the caller then holds the object returned, or goes on to the second lookup; table and counters stay those of the machine |
| ResolverSteps.WriteLocked | pkg/discovery/resolver.go:185-195 | the second lookup is the machine's step, also when another caller has created the cache meanwhile: the caller then holds the table's object, every id keeps its object, and table and counters stay those of the machine |
| ResolverSteps.Take | pkg/discovery/resolver.go:122-123 | drawing a ticket is the machine's step on that object, and the instance is the one at the machine's position; table and counters stay those of the machine |
| ResolverSteps.ReadSection | pkg/discovery/resolver.go:100-105 | the read-locked section is the freshness machine's step |
| ResolverSteps.InstallSection | pkg/discovery/resolver.go:111-115 | so is the write-locked section |
| ResolverConcurrency.CallersShareOneCache | pkg/discovery/resolver.go:176-196 | in every interleaving all callers of a service hold the one object in the table, and services never share one |
| ResolverConcurrency.CacheNeverReplaced | pkg/discovery/resolver.go:188-195 | once in the table a cache object stays there for ever |
| ResolverConcurrency.TicketsAreConsecutive | pkg/discovery/resolver.go:122 | concurrent picks draw consecutive tickets of their cache |
| ResolverConcurrency.ConcurrentPicksFair | pkg/discovery/resolver.go:97-124 | the floor/ceiling bound for concurrent picks in any interleaving |
| ResolverConcurrency.ConcurrentPicksNearlyFair | pkg/discovery/resolver.go:97-124 | the bound of k + 1 across k wraps for concurrent picks in any interleaving |
| EnvKeys.ScanPath | pkg/config/loader.go:115 | replacing "__" turns a joined path into the dotted one exactly when the path is safe |
| EnvKeys.RoundTrip | pkg/config/loader.go:108-117 | for every path, and all letter maps that leave "_" and "." alone, encoding and mapping back gives the dotted path exactly when every letter comes back, no segment holds "__" and none but the last ends in "_" |
| EnvKeys.DottedPathInjective | pkg/config/loader.go:115 | a dotted path determines its dot-free segments |
| EnvKeys.SplitJoins | pkg/config/loader.go:115 | every text is the joining of one safe path, cut at its leftmost separators |
| EnvKeys.SplitOfJoin | pkg/config/loader.go:115 | cutting a joined path gives the path back exactly when it is safe |
| EnvKeys.EncodeInjective | pkg/config/loader.go:108-117 | different safe lower-case paths have different variables |
| EnvKeys.OnlyReadingIffSafe | pkg/config/loader.go:108-117 | a lower-case path is the only safe reading of its variable exactly when it is safe |
| EnvKeys.UnsafePathsCollide | pkg/config/loader.go:108-117 | every unsafe path shares its variable with a different path, which is safe |
| ConfigLoader.Loader.constructor | pkg/config/loader.go:77-83 | an empty configuration with the given sources |
| ConfigLoader.Loader.Create | pkg/config/loader.go:76-90 | a loader holding the complete merge exactly when every file can be read; otherwise the first failing file |
| ConfigLoader.Loader.LoadSources | pkg/config/loader.go:94-123 | success is the merge of all layers in order; failure names the first unreadable file and leaves the merge of what came before it |
| ConfigLoader.Loader.ReadEnvironment | pkg/config/loader.go:111-120 | the environment layer: prefix, mapping, empty keys skipped, last variable wins |
| ConfigLoader.Loader.Reload | pkg/config/loader.go:170-181 | a full merge from scratch, or exactly the previous configuration |
| ConfigLoader.Loader.Watch | pkg/config/loader.go:141-191 | set-up errors; one callback per good write; one reported error per failed reload; the configuration is that of the last good write, or unchanged |
| ConfigLoader.FailuresExact | pkg/config/loader.go:167-184 | each write whose reload fails is reported once, in its turn, with the first path that cannot be read |
| ConfigLoader.MergePriority | pkg/config/loader.go:92-93 | a key has a value exactly when some layer sets it and no later layer sets it, a level above or a level below: later layers win and removed keys are gone |
| ConfigLoader.AboveIsPrefix | pkg/config/loader.go:94-123 | a key lies above another exactly when its segments are the first of the other's |
| ConfigLoader.LoadedExact | pkg/config/loader.go:92-123 | which source gives a key its value: the environment before the files, a later file before an earlier one, every file before the defaults |
| ConfigLoader.MergeStaysTree | pkg/config/loader.go:94-123 | merging trees of keys gives a tree: no leaf lies above another |
| ConfigLoader.LastVariableWins | pkg/config/loader.go:111-117 | of several variables mapped to one key the last in the environment gives the value |
| ConfigLoader.EnvLayerExact | pkg/config/loader.go:111-117 | the environment layer gives a key a value exactly when the last variable set for the key has it |
| ConfigLoader.VariableOverrides | pkg/config/loader.go:107-120 | the variable spelled for a safe path overrides every file and default, whatever they hold |
| ConfigLoader.DocumentedNameNeverSets | pkg/config/loader.go:49-50 | for every prefix and every path, the variable spelled with single underscores does not set its key |
| ConfigLoader.DocumentedExample | pkg/config/loader.go:49-50 | `MYAPP_SERVER_ADDR` does not set `server.addr` |
| ConfigReload.ReadersSeeCompleteLoads | pkg/config/loader.go:127-184 | in every interleaving of reload steps and readers, a reader gets the full merge of the last reload that read every file, or the initial configuration; never a partial merge |
| ConfigReload.ReloadIsARun | pkg/config/loader.go:167-184 | the loader's reload, run without interruption, is one run of that machine |
| ConfigReload.LockNeededIff | pkg/config/loader.go:170-181 | some run of reload steps has a moment at which the field is not the configuration in force exactly when there is a file, an environment prefix, or an initial configuration other than the defaults alone |
| LogHandlers.With | pkg/observe/multihandler.go:38-52 | deriving fills a fresh slice with the derived handlers, index by index, at every depth; every leaf keeps its place and gains the derivation at the end |
| LogHandlers.FanOutLeaves | pkg/observe/multihandler.go:10-16 | a fan-out has the leaves of its parts, one part after the other, however they are grouped |
| LogHandlers.DerivedLeaves | pkg/observe/multihandler.go:38-52 | deriving a tree derives each of its leaves, in order, and no other |
| LogHandlers.Enabled | pkg/observe/multihandler.go:18-25 | a fan-out is enabled exactly when some leaf below it is |
| LogHandlers.Handle | pkg/observe/multihandler.go:27-36 | a fan-out nested to any depth treats its leaves as one flat list |
| LogHandlers.FlatReaches | pkg/observe/multihandler.go:27-36 | exactly the enabled leaves get the record, in order, up to and including the first that fails, whose error is returned |
| SwapHandlers.ApplyOpsLeaves | pkg/observe/swaphandler.go:32-38 | folding a list of derivations gives every leaf of the root, in order, the whole list |
| SwapHandlers.SwapHandler.constructor | pkg/observe/swaphandler.go:22-26 | a fresh root cell holding the handler, and no derivations |
| SwapHandlers.SwapHandler.Swap | pkg/observe/swaphandler.go:28-30 | writes the shared cell and nothing else |
| SwapHandlers.SwapHandler.Current | pkg/observe/swaphandler.go:32-38 | the present root with this handler's derivations applied in order |
| SwapHandlers.SwapHandler.With | pkg/observe/swaphandler.go:48-64 | a new handler on the same root with one more derivation in a list of its own; no existing list is written |
| SwapHandlers.SwapHandler.Enabled | pkg/observe/swaphandler.go:40-42 | answers for the leaves of the present root carrying this handler's derivations |
| SwapHandlers.SwapHandler.Handle | pkg/observe/swaphandler.go:44-46 | the record goes to the leaves of the present root, each with this handler's derivations; a root that is one foreign handler gets it without being asked for its level |
| SwapHandlers.PathStable | pkg/observe/swaphandler.go:48-64 | later derivations, siblings included, change no handler's path |
| SwapHandlers.PlayPaths | pkg/observe/swaphandler.go:48-64 | after any history every handler's list is the path from the first handler to it |
| SwapHandlers.DerivedTracksSwaps | pkg/observe/swaphandler.go:9-16 | after any history of swaps and derivations a handler acts as the root last swapped in with its own path of derivations applied directly, on every leaf |
| SwapHandlers.PlayObjects | pkg/observe/swaphandler.go:17-64 | the objects themselves follow every history: one shared root, one list each |
| KafkaHeaders.Carrier.Get | pkg/broker/kafka/propagation.go:21-28 | the first header's value, or the empty string |
| KafkaHeaders.Carrier.Set | pkg/broker/kafka/propagation.go:32-40 | overwrites the first header of the key in place, or appends one |
| KafkaHeaders.Carrier.Keys | pkg/broker/kafka/propagation.go:43-49 | the keys in order |
| KafkaHeaders.InjectTraceContext | pkg/broker/kafka/propagation.go:54-58 | sets the trace headers in the propagator's order, none without a valid span |
| KafkaHeaders.ReadingsAgree | pkg/broker/kafka/propagation.go:21-28 | Get and the consumer's map agree on a key exactly when its first and last headers hold the same value; they can differ only on a repeated key |
| KafkaHeaders.DistinctReadingsAgree | pkg/broker/kafka/consumer.go:492-501 | on distinct keys the two readings are the same map |
| KafkaHeaders.SetUpdatesFirstMap | pkg/broker/kafka/propagation.go:32-40 | under Get, Set is a map update whatever the list holds |
| KafkaHeaders.SetUpdatesLastMap | pkg/broker/kafka/propagation.go:32-40 | under the consumer's reading it is one exactly when the key is not repeated or its last header already holds the value |
| KafkaHeaders.ListHeaders | pkg/broker/kafka/producer.go:191-195 | some order of the map's entries, each key once |
| KafkaHeaders.ToMap | pkg/broker/kafka/consumer.go:492-501 | nil for no headers, otherwise the last header of each key |
| KafkaHeaders.EndToEnd | pkg/broker/kafka/producer.go:191-196 | for every user map, every listing order and every span, the consumer's map is the user's overridden by the trace headers, and no key is sent twice |
| KafkaHeaders.SpanRoundTrip | pkg/broker/kafka/propagation.go:54-66 | the consumer extracts the producer's span exactly when it has a trace state or the user's headers hold none that parses to one |
| KafkaHeaders.ExtractTraceContext | pkg/broker/kafka/propagation.go:63-66 | none without a parent that parses; the state is what the parser makes of its text, and none if that does not parse |
| KafkaProducer.Producer.constructor | pkg/broker/kafka/producer.go:80-82 | a producer has its hooks and no writer |
| KafkaProducer.Producer.Create | pkg/broker/kafka/producer.go:79-98 | an error and no producer exactly when there is no broker address |
| KafkaProducer.Producer.Start | pkg/broker/kafka/producer.go:103-120 | a second Start is an error and changes nothing; the first creates a writer |
| KafkaProducer.Producer.Stop | pkg/broker/kafka/producer.go:124-142 | the writer is dropped even if closing it fails; Stop before Start does nothing |
| KafkaProducer.Producer.RunPipeline | pkg/broker/kafka/producer.go:183-189 | the hooks in order up to the first failure, each on what the one before left |
| KafkaProducer.RunHooksExact | pkg/broker/kafka/producer.go:183-189 | each hook gets the world and the message the one before it left, and the result is that of the first that fails or of the last |
| KafkaProducer.Producer.Prepare | pkg/broker/kafka/producer.go:191-203 | the client's message has the hooked one's topic, key and payload, which are shared and not copied, and its headers with the trace headers over them, no key twice |
| KafkaProducer.Producer.Publish | pkg/broker/kafka/producer.go:162-214 | nil exactly when no hook and no write fails; after a failing hook nothing was written, otherwise, if the client accepts it, one message with the hooked one's topic, key, payload and headers and the trace headers over these |
| KafkaProducer.Producer.PublishBatch | pkg/broker/kafka/producer.go:220-257 | nil exactly when no hook and no write fails, and then all messages were written in order; after a failing hook none was, after a failing write those the client accepted, in order; and the world the hooks leave |
| KafkaProducer.BatchExact | pkg/broker/kafka/producer.go:228-250 | message after message hooked in the world the one before it left, up to a failing hook; each comes to its topic, key and payload with the bytes they have after the last hook and the headers it had right after its own hooks |
| KafkaProducer.EachExact | pkg/broker/kafka/producer.go:162-214 | single publishes hook likewise, whatever becomes of those before, and each comes to its topic, key, payload and headers as they are right after its own hooks |
| KafkaProducer.AcceptedInOrder | pkg/broker/kafka/producer.go:252 | the accepted messages of a write keep their order |
| KafkaProducer.AtomicIff | pkg/broker/kafka/producer.go:216-257 | whatever the client accepts of the write, a batch adds all its messages or none, exactly when one of its hooks fails or it has at most one message |
| KafkaProducer.BatchPasses | pkg/broker/kafka/producer.go:229-250 | if the hooks ignore the span and none fails, repeated single publishes hook the same messages in the same worlds, hooks with state, shared header maps and shared payloads included, and write each with the bytes it had right after its own hooks |
| KafkaProducer.BatchAsSingles | pkg/broker/kafka/producer.go:229-252 | if the hooks also leave earlier messages alone, that is what the batch writes |
| KafkaProducer.BatchFailure | pkg/broker/kafka/producer.go:230-234 | if the hooks ignore the span and one fails, the single publish of that message fails the same way and those before it write what the batch had hooked; the batch leaves the world of those singles |
| KafkaProducer.BatchPassesWhenSinglesDo | pkg/broker/kafka/producer.go:229-250 | with hooks that ignore the span, the batch gets past them exactly when every single publish does |
| KafkaProducer.StagesAgreeIff | pkg/broker/kafka/producer.go:162-250 | batch and single publishes make the same of all messages in all worlds with all spans exactly when the hooks together ignore the span in their context and hooking one message more never changes what the earlier ones of a batch come to |
| KafkaProducer.SharedPayloadOverwritten | pkg/broker/kafka/producer.go:229-252 | a hook that overwrites a payload two messages share ignores the span and does not leave the earlier one alone |
| KafkaProducer.BatchRefinesSingles | pkg/broker/kafka/producer.go:216-257 | with hooks that ignore the span and leave earlier messages alone, none failing, the written batch equals what single publishes with any spans of their own write, in order and up to trace headers, and the final world is the same |
| KafkaProducer.PublishSingly | pkg/broker/kafka/producer.go:162-214 | calling Publish on one message after another, whatever fails, gives each the result, error and written message of the specification of repeated publishes |
| KafkaProducer.BatchAndSingles | pkg/broker/kafka/producer.go:216-257 | of two producers with the same hooks, which ignore the span and leave earlier messages alone, and no failing write, the one given the batch succeeds exactly when every Publish of the other does; then both have written the same messages in order up to trace headers and left the same world, and otherwise the batch has written nothing |

## Left out

- Foreign clients: Temporal, Redis, kafka-go, NATS, koanf, fsnotify and the OpenTelemetry propagator are outcomes, not code.
- Tracing spans, metrics and log calls: erased everywhere.
- Wall-clock time and timers: an abstract number in the resolver, events elsewhere.
- Saga: each activity is one atomic step on the world; activity timeouts, retries and workflow cancellation are part of its outcome.
- Idempotency: the JSON round trip of a cached response is taken to be faithful, and each store call to be atomic.
- Idempotency: what is sent is what is handed to the response writer; net/http sends a captured 1xx status as informational with a final 200, and refuses a body on 204 and 304.
- Idempotency.Serve: does not model other requests between its own store calls, because the interleavings are those of the machine it is proved to be a run of.
- Kafka consumer: one partition and one member at a time; commits are synchronous (no commit interval); Subscribe, Start and Stop of the consumer are not modelled.
- NatsDelivery.ProcessMessage: has no step for a cancelled retry wait, because its context derives from the background context and is never cancelled, so that branch is dead.
- NATS core mode: deliveries are JetStream deliveries; without JetStream there is nothing to acknowledge.
- NATS shutdown: starting the same Subscriber again after Stop, and subscribing while Stop runs.
- Lifecycle: signals and shutdown timeouts; a panic in a hook or component; calls of Use from inside a plugin's Init, which only affect a later Run.
- Resolver: Start and Stop of the watchers, beyond the updates they install; the machine of shared caches and tickets treats reading or refreshing a list as one step, the freshness machine does not.
- KafkaHeaders.SpanRoundTrip: the propagator's parser is a parameter; it is taken to read back the texts of the producer's own span.
- Config: YAML parsing, unmarshalling into structs, and maps without leaves; a source that sets a key both as a leaf and as a level.
- Config loader: it uses the key codec with ASCII letters; the code's lower-casing covers all letters, as the codec's own lemmas do.
- Log handlers: what a foreign handler does with its attributes; a swappable handler used as the root of another.
- Kafka producer: of a hook's context only the span is modelled, and nothing but the hooks changes header maps and payloads while a publish runs.
- The consumer's and publisher's remaining options, and membroker and the NATS publisher: easier copies of the same loops.
- HTTP server plumbing, database, S3 and Consul wrappers, scaffolding and test helpers.
