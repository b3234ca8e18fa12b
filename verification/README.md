# OrderFurnace: a Dafny model of its services

OrderFurnace benchmarks order-matching engines: an orchestrator hands benchmark sessions to workers,
workers run trading bots, bots report telemetry, and a telemetry service judges and measures it. This
project models the stateful core of five of its Go services and proves what that core keeps, over all
inputs, all runs and all interleavings.

Each mutex-protected critical section is one step. Objects whose methods change fields are classes with
those fields; the specification each method is proved against is a function of the history (a ghost log) or
of the old state, and the properties are lemmas about that function. Concurrency is either an arbitrary
sequence of calls on a class or an arbitrary run of a state machine. Clock readings, random draws, Redis
success and the order in which a Go map is iterated are parameters.

| module | file | what it models |
|---|---|---|
| Events | Events.dfy | the telemetry event |
| Sets | Sets.dfy | the orders in which a set can be visited |
| OrderBooks | OrderBook.dfy | the order-book mirror with lazy deletion, against a plain book of live orders |
| BookReports | BookReports.dfy | when the best prices returned are those of the plain book |
| Validation | Validator.dfy | verdicts on fills, one book per session, against the whole event history |
| EventVerdicts | EventVerdicts.dfy | the same verdicts stated on the events alone |
| Reservoir | Reservoir.dfy | Algorithm R as the metrics run it, and its counting theorems |
| SessionMetricsModel | Metrics.dfy | the metrics of one session: counters, reservoir, percentiles |
| Publishing | Publisher.dfy | the publishing tick against the consumer, two goroutines and two mutexes |
| BatchWriting | BatchWriter.dfy | the database batch with its two kinds of flush |
| Consuming | Consumer.dfy | the consumer loop through validator, writer and metrics |
| Pipeline | Pipeline.dfy | from the event stream to the published counters |
| Orchestration | Orchestrator.dfy | sessions, workers, dispatch goroutines and auto-stop timers as a state machine |
| OrchestratorService | OrchestratorService.dfy | the same steps as methods and loops on mutable tables |
| Dispatching | Dispatching.dfy | how bots are split and one command is issued to every worker |
| Delivery | Delivery.dfy | what becomes of the commands queued for a worker |
| Heartbeats | Heartbeats.dfy | the session's order count, kept from cumulative reports |
| WorkerProtocol | WorkerProtocol.dfy | START, STOP and late spawns in a worker |
| BotTelemetry | BotTelemetry.dfy | the pending orders of a WebSocket bot and the events it emits |
| Gateway | Hub.dfy | fan-out to bounded queues |
| RateLimiting | RateLimiter.dfy | the sliding-window limiter |

## Where the obvious claim is false

In these places the expected property fails. The code is modelled as it is, and a lemma says exactly when
the property holds; where a failing input is not plain from that, another lemma gives one. The last two
entries are places where a comment promises something else than the code does.

- A reservoir whose draws range over `totalOrders` is not a uniform sample of the positive latencies:
  it is one exactly when no latency that is not positive precedes a positive one (`StreamUniformIff`).
- The mirror's best prices follow the plain book of live orders, an empty side and a best price at the
  sentinel told apart, exactly when every earlier use of a live identifier was on the same side at no better
  a price (`BooksAgreeIff`; `RevivedOrderMisleads`). The numbers it returns, which do not tell them apart,
  follow the plain book's under a slightly weaker condition, also exact (`ReportsAgreeIff`). Its verdicts
  follow the plain book's exactly when the same holds of all uses except those at a price that no fill can
  break (`VerdictsExactIff`; `ReuseFalseAlarm`).
- The three published percentiles are out of order exactly when, between two of their reads, the second
  positive latency of the session landed and was below the first (`ReadsOutOfOrderIff`, over all runs
  `PublishedIsSound`; `TornSnapshot`).
- A stopped session can run again, exactly when a dispatch of its record still waits (`RunsAgainIff`).
- Queued commands can be lost, exactly when a worker with a non-empty channel is registered again, as every
  poll does, or removed as timed out (`LosesIff`).
- The shares of a negative bot count can miss the total (`SharesAddUpIff`), and the bots spawned are as many
  as asked for exactly when there are at least as many as workers (`SpawnedExactlyIff`), because a worker
  turns a share of 0 into 8.
- A worker can be issued two START commands by one dispatch: exactly when another worker registered as
  "broadcast" has a full channel, because its command then goes out on the topic that every poll listens to
  (`OneStartForEachWorkerIff`, `SecondStart`). `DispatchSpawnsExactlyIff` carries the condition.
- A STOP ends the bots of another session exactly when the latest START is of another session and its spawn
  has run and made bots, because the session that a STOP names is not looked at (`StopEndsOthersIff`).
- A re-created session counts from zero exactly when every worker's last report under its identifier is zero
  or missing (`CountsFromZeroIff`; `RecreatedSessionStartsShort`). Two workers can share a report key exactly
  when one's identifier and a colon begin the other's (`KeysCollideIff`), and the counts of sessions started
  once are right on every run exactly when no two workers can (`CountRightIff`; `CollidingKeysLoseOrders`).
- A heartbeat counts dead bots exactly when a spawn since the last stop made bots for a START that is not
  the latest (`HeartbeatCountIff`, `DeadBotsCounted`). The orders it reports all belong to the session it
  names exactly when no bot spawned since the last stop for another session has sent one
  (`HeartbeatOrdersIff`, `OldOrdersReported`).
- An order re-sent while it waits is lost to telemetry (`AccountedIff`).
- A comment calls the rate limiter a token bucket. The code keeps a log of all attempts, rejected ones
  included, and the model follows the code (`AllowedIff`).
- A comment says that the shards of dead workers are reassigned. The code only removes the workers, and so
  does the model.

## Model

| member | source | states |
|---|---|---|
| OrderBooks.OrderBook.AddOrder | services/telemetry-service/main.go:77-97 | keeps both sides strictly sorted, without empty levels, each level holding exactly the orders that arrived at its price in arrival order, and the index equal to the plain book of live orders; a limit order enters the index with its own number, quantity and time, and any other order changes nothing |
| OrderBooks.OrderBook.Insert | services/telemetry-service/main.go:99-119 | appends at the level of the price or sorts a new level in; the orders at every other price are unchanged |
| OrderBooks.OrderBook.RemoveOrder | services/telemetry-service/main.go:121-126 | removes the identifier from the index and changes no level, and the book still follows its history |
| OrderBooks.OrderBook.BestBid | services/telemetry-service/main.go:129-140 | the highest bid price in sight, or 0 if none, and no other value |
| OrderBooks.OrderBook.BestAsk | services/telemetry-service/main.go:143-154 | the lowest ask price in sight, or the largest float64 if none, and no other value |
| OrderBooks.OrderBook.Scan | services/telemetry-service/main.go:132-139 | the first level with an indexed order is the best price over the whole history |
| OrderBooks.SortKeeps | services/telemetry-service/main.go:106-107 | sorting distinct levels makes them strictly sorted and changes no level |
| OrderBooks.ShapeIsUnique | services/telemetry-service/main.go:65-66 | the levels of a side are determined by the orders at each price |
| OrderBooks.OnlyLimitOrdersVisible | services/telemetry-service/main.go:77-80 | every price in sight is that of a limit order of its side |
| OrderBooks.VisibleIff | services/telemetry-service/main.go:132-138 | a price is in sight exactly when some order that arrived there has a live identifier |
| OrderBooks.LiveMeansStillRests | services/telemetry-service/main.go:90-126 | an order is live exactly when it is the latest limit order of its identifier and nothing removed it since |
| OrderBooks.LiveIsVisible | services/telemetry-service/main.go:129-154 | for every history, the price of every live order is in sight |
| OrderBooks.TopCoversLiveOrders | services/telemetry-service/main.go:129-154 | for every history, the reported best price is at least as good as that of every live order on the side |
| OrderBooks.FreshIdsAgree | services/telemetry-service/main.go:77-154 | with each identifier limit-acknowledged at most once, the prices in sight are exactly the live ones |
| OrderBooks.BooksAgreeIff | services/telemetry-service/main.go:134 | the best prices, or their absence, stay those of the plain book through all further removals if and only if re-used identifiers are harmless |
| BookReports.ReportsAgreeIff | services/telemetry-service/main.go:129-154 | the numbers returned stay the plain book's through all further removals if and only if each live identifier was used on its own side at no better a price, on the other side not at all or at best at the sentinel, and no live price is worse than a sentinel so used |
| OrderBooks.RevivedOrderMisleads | services/telemetry-service/main.go:134 | a cancelled buy at 101 shows again when its identifier comes back at 99 |
| Validation.Validator.GetBook | services/telemetry-service/main.go:167-176 | the session's own book, created empty on first use; no two sessions share one |
| Validation.Validator.Judge | services/telemetry-service/main.go:188-209 | a fill is marked exactly when it was marked on arrival, breaks price priority against some price in sight, or overfills beyond the tolerance |
| Validation.Validator.Apply | services/telemetry-service/main.go:183-218 | what each event type does to the book and to the mark; a rejection leaves the book as it is |
| EventVerdicts.LiveIffStands | services/telemetry-service/main.go:183-218 | an order is live exactly when some event limit-acknowledged it in the session and no later fill or cancel of the session removed it |
| EventVerdicts.VisibleIffInSight | services/telemetry-service/main.go:183-218 | a price is in sight exactly when a limit acknowledgement of the session and side carried it and its identifier is live |
| EventVerdicts.VerdictOnEvents | services/telemetry-service/main.go:180-219 | an event is marked if and only if it was on arrival, or it is a fill that sells more than 0.001 below a positive bid in sight, buys more than 0.001 above an ask in sight, or is over the order's quantity by more than 0.0001 |
| Validation.Validator.Validate | services/telemetry-service/main.go:180-219 | the mark left on each event is the verdict of a definition over the whole event history before it |
| Validation.SellRule | services/telemetry-service/main.go:194 | comparing with the best bid is comparing with every positive bid |
| Validation.BuyRule | services/telemetry-service/main.go:199 | comparing with the best ask is comparing with every ask |
| Validation.NothingMissed | services/telemetry-service/main.go:180-219 | for every history, a fill that the plain book would flag is flagged |
| Validation.FreshVerdictsExact | services/telemetry-service/main.go:180-219 | with fresh identifiers the verdicts are exactly the plain book's |
| Validation.VerdictsExactIff | services/telemetry-service/main.go:180-219 | on every fill, now and after any removals, the verdicts are the plain book's if and only if every earlier use of a live identifier was on the same side at no better a price, or a bid that is not positive, or an ask that no finite fill price exceeds by the tolerance |
| Validation.HarmlessVerdictsExact | services/telemetry-service/main.go:180-219 | so they are whenever the best prices agree through all removals |
| Validation.ReuseFalseAlarm | services/telemetry-service/main.go:194 | a re-used identifier makes a correct fill look like a violation |
| Validation.SessionsDoNotInterfere | services/telemetry-service/main.go:167-219 | in any interleaving the verdicts on a session are those of the session alone |
| Validation.FinalBookOfSession | services/telemetry-service/main.go:167-219 | after any interleaving the book of a session equals, field by field, that of the session alone |
| Reservoir.SpaceIsAllLegalDraws | services/telemetry-service/main.go:243 | the space counted over is exactly the draw sequences the random source can produce |
| Reservoir.FinalDistinct | services/telemetry-service/main.go:238-248 | the reservoir holds distinct records, fills first and in order |
| Reservoir.UniformWhenAllPositive | services/telemetry-service/main.go:238-248 | with positive latencies only, count times n equals K times all: each record is kept by K/n of the draw sequences |
| Reservoir.EverySampleEquallyLikely | services/telemetry-service/main.go:238-248 | with positive latencies only, every set of K records is left by exactly (n-K)! draw sequences |
| Reservoir.UniformIff | services/telemetry-service/main.go:234-246 | an overflowed reservoir is uniform if and only if the last draw's bound is the number of records |
| SessionMetricsModel.StreamUniformIff | services/telemetry-service/main.go:234-243 | the same in terms of the latencies recorded |
| SessionMetricsModel.SessionMetrics.Record | services/telemetry-service/main.go:231-249 | counts the event and its violation; appends a positive latency below 10000 kept ones, replaces the drawn one after that, and ignores the others; the kept latencies follow the sampler on a legal draw sequence |
| SessionMetricsModel.SessionMetrics.Percentile | services/telemetry-service/main.go:251-262 | 0 when empty; otherwise one of the positive latencies recorded, with at least floor((n-1)p)+1 of the n kept ones at or below it and at most floor((n-1)p) below it; the reservoir is unchanged |
| SessionMetricsModel.SortCounts | services/telemetry-service/main.go:257-259 | the sorted copy has the same counts at every value |
| SessionMetricsModel.PercentileIsOrderStatistic | services/telemetry-service/main.go:251-262 | the percentile is the order statistic of its rank |
| SessionMetricsModel.PercentileCounts | services/telemetry-service/main.go:251-262 | the percentile is a kept latency with these counts, in terms of n and p alone |
| SessionMetricsModel.Rank | services/telemetry-service/main.go:260 | the index read is the integer part of (n-1)p, and within the kept latencies |
| SessionMetricsModel.PercentileMonotone | services/telemetry-service/main.go:260 | on one snapshot a larger fraction gives no smaller latency |
| SessionMetricsModel.ExactUntilFull | services/telemetry-service/main.go:239-241 | until the first overflow every positive latency is kept, in order |
| SessionMetricsModel.HigherRankNotLower | services/telemetry-service/main.go:238-261 | one record cannot push an order statistic below that of a lower rank read before it |
| Publishing.PercentilesAcrossIff | services/telemetry-service/main.go:401-403 | an earlier percentile read before a record exceeds a later one read after it if and only if the record is the second positive latency and below the first |
| Publishing.ReadsOutOfOrderIff | services/telemetry-service/main.go:401-403 | three reads are out of order if and only if such a record landed between two of them |
| Publishing.CurrentIsOrdered | services/telemetry-service/main.go:401-403 | percentiles read from one state of the latencies are in order |
| Publishing.StepKeepsConsistent | services/telemetry-service/main.go:381-446 | every step of consumer or publisher keeps counters sound and at most one record landing in a tick |
| Publishing.RunsStayConsistent | services/telemetry-service/main.go:381-446 | so does every interleaving |
| Publishing.PublishedIsSound | services/telemetry-service/main.go:406-414 | in every run, every published pair has violations within the total and fill accuracy in [0, 100]; the percentiles of a snapshot are out of order if and only if the session's second positive latency landed between two of its reads, below the first; within a tick at most one snapshot is torn |
| Publishing.WholeSnapshot | services/telemetry-service/main.go:401-414 | a snapshot that no record tore holds the percentiles at 0.50, 0.90 and 0.99 and the counters of one moment |
| Publishing.AccuracyMeans | services/telemetry-service/main.go:411-414 | the fill accuracy times the total is 100 times the events without violation; it is 100 exactly for a session with events and no violation |
| Publishing.TickPublishesOnce | services/telemetry-service/main.go:397-445 | by the time a tick can end, it has published every session known when it began exactly once |
| Publishing.TornSnapshot | services/telemetry-service/main.go:401-403 | a reachable snapshot whose p50 is above its p90 |
| BatchWriting.TSWriter.Append | services/telemetry-service/main.go:291-296 | appends one event and says whether 5000 are reached |
| BatchWriting.TSWriter.Flush | services/telemetry-service/main.go:309-317 | swaps the whole batch out, or does nothing when it is empty or there is no pool |
| BatchWriting.TSWriter.Interleave | services/telemetry-service/main.go:291-317 | for any interleaving and any number of adders, the chunks in swap order followed by the batch are exactly the events added; with one adder no batch exceeds 5000 |
| Consuming.MetricsTable.Find | services/telemetry-service/main.go:381-388 | the session's own metrics, created empty on first use: the consumer's first step in the interleavings with the publisher |
| Consuming.MetricsTable.Land | services/telemetry-service/main.go:389 | the record lands in the metrics of its session only: the consumer's second step in those interleavings |
| Consuming.MetricsTable.Record | services/telemetry-service/main.go:381-390 | the session's metrics hold exactly its samples, and no other session's change |
| Consuming.Consumer.Handle | services/telemetry-service/main.go:497-506 | each event is judged, written if there is a writer, and recorded, in order and once, with the timer's flush before, between or after; the chunks handed to the database and the batch are exactly the judged events |
| Consuming.Consumer.Counters | services/telemetry-service/main.go:406-409 | end to end, over any interleaved stream, the counters read for a session are the number of its events and the number that the definition over its own history flags |
| Consuming.SamplesAreVerdicts | services/telemetry-service/main.go:497-506 | the samples recorded for a session count its events, and their violations are its verdicts |
| Consuming.LatenciesAreEvents | services/telemetry-service/main.go:497-506 | the latencies recorded for a session are those of its events, in order |
| Pipeline.RunFollows | services/telemetry-service/main.go:381-446 | in every interleaving, the counters of every session and of every snapshot are those of a first part of the samples brought in |
| Pipeline.PublishedAreVerdicts | services/telemetry-service/main.go:381-510 | end to end, over every run of consumer and publisher, the total and violations published for a session are the number of events, and of those flagged by the definition, in an initial part of the session's own history |
| Consuming.Consumer.Tick | services/telemetry-service/main.go:301-307 | the timer's flush loses and reorders nothing |
| Orchestration.InitialInvariant | services/bot-orchestrator/main.go:91-98 | a new orchestrator satisfies the invariant |
| Orchestration.StepKeepsInvariant | services/bot-orchestrator/main.go:105-306 | each critical section keeps: good session records, a stop timer for every running session, the same keys for workers and channels |
| Orchestration.RunsKeepInvariant | services/bot-orchestrator/main.go:105-306 | so does every run with a clock that does not go back |
| Orchestration.Quiescence | services/bot-orchestrator/main.go:146-226 | without new sessions every goroutine step lowers 2*dispatches + timers, and at zero no session is running |
| Orchestration.RunsAgainIff | services/bot-orchestrator/main.go:214-239 | a session that is not running can come to run without a new start if and only if a dispatch of its record waits |
| OrchestratorService.Orchestrator.constructor | services/bot-orchestrator/main.go:91-102 | a new orchestrator is the initial state and valid; every method keeps it valid, so the invariant holds of every object |
| OrchestratorService.Orchestrator.StartSession | services/bot-orchestrator/main.go:105-149 | stores a pending session, under a generated identifier if none is given, and leaves one dispatch with the session's own address, bots and duration if Redis succeeds, none otherwise |
| OrchestratorService.Orchestrator.DispatchToWorkers | services/bot-orchestrator/main.go:164-227 | takes exactly the dispatch step: broadcast without workers, otherwise commands, running record and timer |
| OrchestratorService.Orchestrator.ServeWorkers | services/bot-orchestrator/main.go:188-212 | the loop sends or publishes one worker after another |
| OrchestratorService.OneByOne | services/bot-orchestrator/main.go:191-212 | sending one by one gives every channel of the order its own command and no other channel anything |
| OrchestratorService.SpilledOneByOne | services/bot-orchestrator/main.go:206-210 | publishing one by one gives exactly the commands of the workers with full channels |
| OrchestratorService.Orchestrator.StopSession | services/bot-orchestrator/main.go:229-252 | an unknown session changes nothing; a known one is done and ended now, every channel with room ends in the command STOP for it, full ones are unchanged, and the last thing published is that command for all |
| OrchestratorService.Orchestrator.AutoStop | services/bot-orchestrator/main.go:223-226 | the timer's goroutine takes the stop step and is gone |
| OrchestratorService.Orchestrator.RegisterWorker | services/bot-orchestrator/main.go:255-263 | a fresh record and an empty channel, whatever was queued before |
| OrchestratorService.Orchestrator.UpdateWorkerHeartbeat | services/bot-orchestrator/main.go:266-289 | refreshes a known worker, credits a known session with the increment over the last report under worker:session if it is positive, and remembers the report |
| OrchestratorService.Orchestrator.ReconcileWorkers | services/bot-orchestrator/main.go:296-305 | exactly the workers seen within the last 60 seconds remain, unchanged, and only the others lose their channels |
| OrchestratorService.Orchestrator.ReceiveCommand | services/bot-orchestrator/main.go:473-474 | a poll takes the oldest command of the channel |
| Dispatching.SharesAddUpIff | services/bot-orchestrator/main.go:188-195 | the shares add up to the bot count if and only if it is not negative or divides evenly |
| Dispatching.SharesEven | services/bot-orchestrator/main.go:188-195 | no two shares differ by more than one |
| Dispatching.StartsForEachWorker | services/bot-orchestrator/main.go:187-212 | by channel, on its own topic and on the common one, a dispatch issues each registered worker one START with its share, and, if a worker named like the common topic has a full channel, every other worker that one's as well |
| Dispatching.OneStartForEachWorkerIff | services/bot-orchestrator/main.go:187-212 | exactly one START if and only if the worker has that name or no worker of that name has a full channel |
| Dispatching.SecondStart | services/bot-orchestrator/main.go:206-210 | a reachable state in which any dispatch issues a worker two STARTs |
| Dispatching.SpawnedExactlyIff | services/bot-worker/main.go:638-642 | if each worker receives its START once, the bots spawned are as many as asked for if and only if there are at least as many as workers |
| Dispatching.StartLeadsToBots | services/bot-orchestrator/main.go:105-227 | end to end, after a start that succeeds, with workers, the session's own dispatch can run; it brings the session to running with a stop timer, and its commands spawn as many bots as the session asks for under the condition of DispatchSpawnsExactlyIff |
| Dispatching.DispatchSpawnsExactlyIff | services/bot-orchestrator/main.go:187-212 | end to end from a state of the orchestrator to the workers' bots: the commands of one dispatch spawn as many bots as asked for if and only if that is at least one for each worker and no command goes out on the common topic, one worker alone excepted |
| Delivery.LosesIff | services/bot-orchestrator/main.go:255-306 | a step loses commands queued for a worker if and only if there are any and it registers the worker again or removes it as timed out; any other queues behind them exactly what its action sends |
| Delivery.DispatchSends | services/bot-orchestrator/main.go:191-212 | a dispatch queues, for each worker it reaches with room, one START with that worker's share |
| Delivery.StopSends | services/bot-orchestrator/main.go:233-249 | stopping a known session queues its STOP for every worker with room |
| Delivery.ReceivedInOrder | services/bot-orchestrator/main.go:203-250 | along any run in which a worker's channel is not replaced, the STARTs and STOPs that dispatches and stops send to it are received once, in order, or still queued |
| Heartbeats.KeysCollideIff | services/bot-orchestrator/main.go:280 | for session identifiers that are not empty, two workers can share a report key if and only if one's identifier and a colon begin the other's |
| Heartbeats.ColonlessNeverConfused | services/bot-orchestrator/main.go:280 | identifiers without a colon never collide |
| Heartbeats.CountSinceStart | services/bot-orchestrator/main.go:266-289 | on any run, the count of a session since its start is the sum over the workers of all positive increments from their last reports before it |
| Heartbeats.NewSessionCount | services/bot-orchestrator/main.go:266-289 | for a session started once, on any run from the start of the service, all positive increments from zero |
| Heartbeats.CountRightIff | services/bot-orchestrator/main.go:266-289 | for any distinct workers, on every run the count of every session started once is all positive increments if and only if no two of the workers can share a key |
| Heartbeats.ConfusedCount | services/bot-orchestrator/main.go:280-286 | for any two workers that can share a key, a run on which the count is wrong |
| Heartbeats.IncrementsExactIff | services/bot-orchestrator/main.go:281-286 | at least the sum of the last reports, and equal to it if and only if no worker's report ever goes down |
| Heartbeats.CountsFromZeroIff | services/bot-orchestrator/main.go:111-124 | a session started in any state counts from zero, whatever is reported after, if and only if every worker's last report under its identifier is zero or missing |
| Heartbeats.RecreatedSessionStartsShort | services/bot-orchestrator/main.go:111-124 | a re-created session counts from the old reports |
| Heartbeats.CollidingKeysLoseOrders | services/bot-orchestrator/main.go:280-286 | two workers with one key lose orders |
| WorkerProtocol.Worker.TakeCommand | services/bot-worker/main.go:629-654 | the command word START starts, STOP begins a stop of whatever runs, and any other word does nothing |
| WorkerProtocol.Worker.Start | services/bot-worker/main.go:630-642 | cancels the old session context, makes a new one and leaves its spawn to run later |
| WorkerProtocol.Worker.SpawnBots | services/bot-worker/main.go:475-516 | whenever it runs, spawns the bots of its own START, 8 for a count of 0 and none for a negative one, and overwrites the cancellations of their numbers |
| WorkerProtocol.Worker.BeginStop | services/bot-worker/main.go:644-647 | the first half of a STOP cancels the current session |
| WorkerProtocol.Worker.StopBots | services/bot-worker/main.go:518-526 | calls every cancellation the table still has, and no other; forgets all bots, and no session is current |
| WorkerProtocol.StopEndsOthersIff | services/bot-worker/main.go:644-648 | a STOP ends a bot of another session than it names if and only if the latest START is of another session and its spawn has run and made bots |
| WorkerProtocol.LatestIff | services/bot-worker/main.go:629-654 | the session that counts as current is the START with no later START or STOP |
| WorkerProtocol.Worker.LiveIffLatest | services/bot-worker/main.go:475-526 | over every interleaving of commands and late spawns, a bot is live if and only if it belongs to that START |
| WorkerProtocol.Worker.OneLiveContext | services/bot-worker/main.go:629-654 | at most one session context is not cancelled, that of that START |
| WorkerProtocol.LiveCountExact | services/bot-worker/main.go:501-513 | as many bots live as the command asks for once its spawn ran; none before it and none after a STOP |
| WorkerProtocol.Worker.HeartbeatCountIff | services/bot-worker/main.go:538-542 | the bots a heartbeat counts include all live ones, and no others if and only if no spawn since the last stop made bots for a START that is not the latest |
| WorkerProtocol.ActiveOfStart | services/bot-worker/main.go:501-526 | a START has counted bots if and only if its spawn ran since the last stop and made some |
| WorkerProtocol.Worker.CountOrder | services/bot-worker/main.go:260 | one more order of one bot |
| WorkerProtocol.Worker.TotalOrdersSent | services/bot-worker/main.go:528-536 | the sum over the counted bots |
| WorkerProtocol.Worker.HeartbeatOrdersIff | services/bot-worker/main.go:528-536 | whatever session a heartbeat names, the orders it reports are all that session's if and only if no bot spawned since the last stop for another session has sent one |
| WorkerProtocol.OldOrdersReported | services/bot-worker/main.go:528-536 | after a START that follows a START, an old bot's order is reported under the new session |
| WorkerProtocol.DeadBotsCounted | services/bot-worker/main.go:505 | a START after a START, and a spawn after its STOP, leave dead bots counted |
| BotTelemetry.Bot.SendOrder | services/bot-worker/main.go:246-261 | remembers the order and counts it only after a successful write; a failed write ends the loop |
| BotTelemetry.Bot.TakeResponse | services/bot-worker/main.go:225-245 | the events emitted are those the log of sendings and responses calls for; a response to a pending order emits one event that gives back the order, the response, both times and their difference, and any other emits none |
| BotTelemetry.Bot.Cancel | services/bot-worker/main.go:223-224 | a context that is done ends the loop and changes nothing else |
| BotTelemetry.EventReports | services/bot-worker/main.go:227-243 | the event gives the order and the response back field by field, with latency acknowledgement minus sending |
| BotTelemetry.EventsReportAnswers | services/bot-worker/main.go:212-263 | every event ever emitted reports in this way some sending and its first answer |
| BotTelemetry.ResponseEmits | services/bot-worker/main.go:226-245 | a response emits one event if and only if it is the first since its order was last sent, with that sending's own fields |
| BotTelemetry.AccountedIff | services/bot-worker/main.go:213-260 | sendings equal events plus waiting orders if and only if no identifier is re-sent while it waits |
| BotTelemetry.ExactlyOnce | services/bot-worker/main.go:212-263 | with fresh identifiers the orders sent are, disjointly, those waiting and those with an event, and none has two |
| BotTelemetry.OneEventPerOrder | services/telemetry-service/main.go:180-219 | on such a stream the verdicts are the plain book's and no acknowledged limit order ever leaves the book |
| Gateway.Client.TrySend | services/ws-gateway/main.go:63-67 | queues the frame behind the others, or drops it when 256 are queued; only ever on an open channel |
| Gateway.Client.Receive | services/ws-gateway/main.go:132-136 | the oldest queued frame; the end only on a closed and empty channel |
| Gateway.Client.Close | services/ws-gateway/main.go:53 | closes a channel that was open |
| Gateway.Hub.Register | services/ws-gateway/main.go:41-46 | the client is served from now on; one of the same name no longer is |
| Gateway.Hub.Unregister | services/ws-gateway/main.go:48-56 | removes and closes exactly the client of that name |
| Gateway.Hub.Broadcast | services/ws-gateway/main.go:59-69 | every registered client, and no other, is offered the frame |
| Gateway.Hub.Pump | services/ws-gateway/main.go:128-140 | a client's write pump disturbs no other client |
| Gateway.Conservation | services/ws-gateway/main.go:63-67 | frames taken and queued are an in-order subsequence of those offered, and offered = taken + queued + dropped |
| Gateway.NoGapIff | services/ws-gateway/main.go:65-66 | a client misses nothing if and only if nothing was dropped |
| Gateway.NoDropIff | services/ws-gateway/main.go:63-67 | nothing is dropped if and only if the broadcasts are never more than 256 ahead of the write pump |
| RateLimiting.VisibleEnough | services/api-gateway/main.go:80-83 | an expired or pruned set counts the window as the full log does |
| RateLimiting.RateLimiter.Touch | services/api-gateway/main.go:79-90 | prunes, counts, adds and renews the expiry; decides as the full log |
| RateLimiting.RateLimiter.Allow | services/api-gateway/main.go:74-91 | passes exactly when Redis fails or fewer than the limit of the key's earlier attempts, rejected ones included, came after now minus the window; leaves its own stamp and a renewed expiry, and touches no other key |
| RateLimiting.RateLimiter.NeverOverLimit | services/api-gateway/main.go:74-91 | in every reachable state, in any window of the length, wherever it starts, decisions let at most the limit through for a key; all requests let through are at most the limit plus those that came while Redis failed |
| RateLimiting.RecentCounts | services/api-gateway/main.go:80-82 | the stamps counted are as many as the attempts after the cutoff |
| RateLimiting.WindowBound | services/api-gateway/main.go:89-90 | the bound on decisions for any log of attempts |
| RateLimiting.AllowedIff | services/api-gateway/main.go:80-90 | an attempt passes if and only if the attempt as many places before it as the limit is out of the window |
| RateLimiting.ExpiryHarmlessIff | services/api-gateway/main.go:83 | expiry never changes a decision if and only if it covers the window |

## Left out

- Redis, Kafka, Postgres, HTTP, WebSocket and JSON: calls are parameters, ghost logs or omitted. Kafka redelivery and failed `CopyFrom` writes are not modelled.
- Fetching and committing messages, and messages that do not parse, which the consumer skips.
- Rounding: prices, quantities and percentile fractions are exact reals within the float64 range, and integers do not overflow.
- Message and log texts. A log line of the worker takes the first eight characters of a session identifier and fails on a shorter one; that failure is not modelled.
- Delivery of commands from a poll's channel or from Redis over HTTP to the worker: results about bots assume receipt.
- The wait of up to ten seconds before a dispatch and the sleep of a timer: the goroutines run at any later moment.
- The second refresh of `LastSeen` that a poll makes right after it registers.
- The REST bot, `generateOrder`, `thinkTime` and the synthetic market: they pick numbers at random.
- `TPS`, `metricsAggLoop` and the GET handlers, which only copy values; scoring, submissions, authentication, proxies and the frontend.
- The fields `OrdersAcked`, `TPS`, `P50NS` and `P99NS` of a session, which no modelled operation reads.
- OrderBooks.OrderBook.Insert: price levels and live orders are values in a sequence, so that the pointers the Go code shares between levels and index are not captured; nothing changes them after insertion except the append to a level. One method with a side stands for insertBid and insertAsk.
- SessionMetricsModel.SessionMetrics.Record: latencies are a sequence field; the draw is an argument below the new total.
- Publishing.PublishedIsSound: one consumer goroutine, as the service starts; TPS is left out of the snapshot.
- OrchestratorService.Orchestrator.StartSession: session records are values in the table, so that a caller holding the returned pointer does not see later changes; the two Redis writes succeed or fail together.
- OrchestratorService.Orchestrator.RegisterWorker: channels are values in the table, so that a poll still waiting on a replaced channel is not modelled.
- WorkerProtocol.Worker.SpawnBots: a bot is its START and its number; participant type and market are left out, and the worker's own context is never done.
- BotTelemetry.Bot.SendOrder: marshalling an order cannot fail, and a dial that fails over to REST is left out.
- Gateway.Client.Receive: a write that fails ends the pump, which here means that no more frames are taken.
- RateLimiting.RateLimiter.Allow: one limit and one window for each limiter, as its one route uses it; a pipeline is one step and one that fails changes nothing, although a plain Redis pipeline can interleave with others or be applied in part; stamps reach Redis in clock order; the expiry Redis applies is a parameter, because the client library rounds it to seconds.
