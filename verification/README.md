# A verified model of the Beckn adapter's core

The adapter receives Beckn requests, runs a list of steps over each, and answers, forwards
or publishes them. Beside it run a catalog crawler and a set of plugins. This project models
the parts whose correctness depends on more than one function: protocols between goroutines,
caches and indexes that have to agree with a history, walks over trees, and printers with
their parsers.

| file | what it models |
|---|---|
| `Scheduler.dfy`, `SchedulerOverlap.dfy`, `SchedulerProgress.dfy` | the crawl scheduler's mutex, WaitGroup and cancellation, as processes that interleave |
| `PagingWalk.dfy` | asking a network for everything, a page at a time |
| `CrawlGate.dfy` | one crawl at a time, not before it is due, and how long a copy may be served |
| `RetryBudget.dfy` | how often a scheduled publish is attempted before its firing is given up on |
| `MappingCache.dfy` | the bounded, timed cache of compiled mappings and its single flight |
| `SchemaErrors.dfy`, `WireErrors.dfy` | from a tree of schema failures to the causes reported and the code on the wire |
| `ResponseSigning.dfy`, `ReplyContents.dfy` | one request from its steps to its one reply, what is signed and what is said |
| `AuthHeader.dfy` | the auth and Signature headers, printed and parsed |
| `AuditWalk.dfy` | masking and pruning an audited payload |
| `FacilityPayload.dfy`, `FacilitySearch.dfy` | splitting a facility search by type, calling, and merging |
| `PayloadStore.dfy`, `PayloadLookup.dfy` | payloads under expiring keys with an index per transaction, and what its lookup returns |
| `Router.dfy`, `RouteAnswers.dfy` | the routing table, the requests routed through it and where they go |
| `Base64.dfy`, `BlockCrypto.dfy` | encrypting for a peer and decrypting |
| `Json.dfy`, `Strings.dfy`, `Sequences.dfy`, `Options.dfy` | decoded JSON trees, strings, sequences and missing values |

`dafny verify dfyconfig.toml` checks everything.

## How it is modelled

- Concurrent code is a state and a step relation. A run is any interleaving, any number of
  callers may arrive, and results hold for every state of every run.
- Code that changes state is a class or a method with a loop, proved equal to a function of
  the old state; what the code promises is then proved about that function.
- Everything outside is arbitrary: networks, upstreams, steps, signers, clocks (which only
  have to be monotone), registries, the run log, URL parsing and path joining. Cryptography
  is given by two equations: both sides derive the same secret, and decryption of a block
  undoes its encryption (`BlockCrypto.EncryptDecrypt` also takes the reverse).
- A signature is modelled by what it was computed over, so that it can be compared with what
  was written.

## What does not hold

Each of these has its failing inputs as a lemma, and the exact condition under which the code
does what is meant.

- A Stop that overlaps Start is final exactly if Start has launched everything when the Stop
  comes out of Wait (`SchedulerOverlap.FinalExactly`, `OverlappingStopIsNotFinal`).
- A reply can carry a signature over other bytes than its own (`ResponseSigning.SignedIsSent`
  says exactly when): where a step answers a request that is then published
  (`PublishedAnswerIsMissigned`), where a step, wrapped or not, moves the message id of the
  context away from the field beside it (`ContextRenameIsMissigned`, `BareRenameIsMissigned`),
  and where signAck is listed twice (`OnceIsExact`).
- A route to a URL that has none leaves a request without any reply
  (`ResponseSigning.OneReply`).
- A message stored again under the same id can be lost to its transaction's lookup, can show
  up under a transaction it no longer belongs to, and can be out of order
  (`PayloadLookup.RestoredIsLost`, `RestoredElsewhere`, `RestoredKeepsItsPlace`); the lookup is
  right exactly if every store was safe (`StoreIsExact`, `ExactIffSafe`).
- A const failure that has an origin is ruled out by one walk and not explained by the other
  (`SchemaErrors.GuardWithOriginMisleads`, `AllRuledOutReport`).
- A catalog with an id and a null validity crashes the crawl (`CrawlGate.PageCrashes`,
  `ExpiryTouchesOnlyTheEnd`).
- Bodyless routing is said to use the v2 config (router.go:296-338) but looks at every version
  under the wildcard domain (`Router.BodylessIsV2Exactly`), and which one answers can depend on
  the order of a map (`Router.BodylessIsOneExactly`).
- `setAt` is said to create nothing (payload.go:136-168) but adds the leaf's name to an object
  that lacks it (`FacilityPayload.AddsNameExactly`).
- `splitByType` is said to give each part a fresh message id (search.go:224-275) and
  `mergeAnswers` to restore the caller's (search.go:277-358); the code does neither
  (`FacilitySearch.PartsKeepTheMessageId`, `MergeKeepsTheMessageId`).

## Model

| member | source | states |
|---|---|---|
| `Scheduler.StopIsFinal` | pkg/plugin/implementation/catalogcrawler/scheduler.go:170-177 | In every interleaving of loops, after-sync jobs, RunOnce callers and Stop callers in which no Stop overlaps Start: once a Stop has returned, then and for ever after nothing runs or can start, and every RunOnce that answered true has finished its function |
| `Scheduler.RunOnceAfterStopRefuses` | pkg/plugin/implementation/catalogcrawler/scheduler.go:187-201 | A RunOnce that gets the mutex after a Stop has returned answers false |
| `Scheduler.AddNeverRacesWait` | pkg/plugin/implementation/catalogcrawler/scheduler.go:142-156 | While a Stop is inside Wait, no step raises the WaitGroup from zero |
| `Scheduler.MutexExcludes` | pkg/plugin/implementation/catalogcrawler/scheduler.go:170-201 | No two processes are ever between the Lock and the Unlock |
| `Scheduler.RunKeeps` | pkg/plugin/implementation/catalogcrawler/scheduler.go:121-220 | The inductive invariant of every reachable state: the counter is the number of processes that account for it, the mutex has its one holder, a Stop past its cancel leaves the context ended, launched functions exist, and a drained scheduler stays drained |
| `SchedulerOverlap.FinalExactly` | pkg/plugin/implementation/catalogcrawler/scheduler.go:121-177 | Over every run, Stops that overlap Start included: a Stop that comes out of Wait is final, in every way the run can go on, if and only if Start has by then installed its context and launched all its loops |
| `SchedulerOverlap.OverlappingStopIsNotFinal` | pkg/plugin/implementation/catalogcrawler/scheduler.go:121-138 | For every number of loops there is a run in which a Stop that overlaps Start comes out of Wait too early to be final |
| `SchedulerOverlap.StopCanFinish` | pkg/plugin/implementation/catalogcrawler/scheduler.go:142-177 | Wherever a Stop is in Wait, overlapping Start or not, the run can go on until that Stop has returned: nothing it waits for needs the mutex it holds |
| `SchedulerOverlap.RunKeepsBase` | pkg/plugin/implementation/catalogcrawler/scheduler.go:121-220 | What holds of every reachable state even when Stops overlap Start |
| `SchedulerProgress.StartLaunchesAll` | pkg/plugin/implementation/catalogcrawler/scheduler.go:121-138 | At every moment the loops there are and those Start has still to launch are as many as it was to launch |
| `SchedulerProgress.LoopComesRound` | pkg/plugin/implementation/catalogcrawler/scheduler.go:204-220 | In a live context a loop at its body can come round to it again, having launched every one of its jobs as a running job in between, whatever anyone else is doing |
| `SchedulerProgress.LaunchesEveryJob` | pkg/plugin/implementation/catalogcrawler/scheduler.go:145-156 | A loop at its jobs can launch every one that is left and come to its select |
| `SchedulerProgress.Ticks` | pkg/plugin/implementation/catalogcrawler/scheduler.go:204-220 | In a live context a loop that waits can tick |
| `SchedulerProgress.WaitsForTheTick` | pkg/plugin/implementation/catalogcrawler/scheduler.go:204-220 | While the context lives no step takes a waiting loop anywhere but to its body |
| `SchedulerProgress.LoopsLastWhileLive` | pkg/plugin/implementation/catalogcrawler/scheduler.go:204-220 | In every run a loop has exited only if the context has ended |
| `SchedulerProgress.SucceedsExactly` | pkg/plugin/implementation/catalogcrawler/scheduler.go:187-201 | Wherever a run stands, a RunOnce that was called can still get its function running and answer true if and only if the context has not ended and no Stop that will end it holds the mutex |
| `SchedulerProgress.RefusesOnlyUnlessLive` | pkg/plugin/implementation/catalogcrawler/scheduler.go:187-201 | A RunOnce answers false only if the context was not live while it held the mutex |
| `SchedulerProgress.MayHappen` | pkg/plugin/implementation/catalogcrawler/scheduler.go:121-201 | The runs leave nothing out: calls of RunOnce and Stop and the end of the context may come at any time |
| `PagingWalk.Discover` | pkg/plugin/implementation/catalogcrawler/discover.go:153-186 | The loop terminates against every network and produces exactly the specified walk: offsets asked, catalogs handed on, and how it ended |
| `PagingWalk.NeverAsksTwice` | pkg/plugin/implementation/catalogcrawler/discover.go:143-186 | Against any answers the offsets asked for strictly increase, 64-bit wrap-around included |
| `PagingWalk.EchoCoversOnce` | pkg/plugin/implementation/catalogcrawler/discover.go:143-186 | Against a network that echoes the offset over a fixed list, with any positive and even changing limit, the pages handed on are that list exactly once and in order, or its beginning if a call failed |
| `PagingWalk.UnpagedCoversOnce` | pkg/plugin/implementation/catalogcrawler/discover.go:143-151 | Against a network that reports no page and returns what was asked or what is left, the same holds and the walk never gives up |
| `PagingWalk.WalkTells` | pkg/plugin/implementation/catalogcrawler/discover.go:153-186 | Every call before the last was answered and taken, the last call decides between the four ends, and what was handed on are the pages taken, in order |
| `CrawlGate.Crawl.constructor` | pkg/plugin/implementation/catalogcrawler/federationconfig.go:94-98 | A new gate is free and has never been due |
| `CrawlGate.Crawl.Due` | pkg/plugin/implementation/catalogcrawler/federationconfig.go:107-114 | Due exactly if the interval has passed since the last time it was, and only then is the time recorded |
| `CrawlGate.Crawl.Claim` | pkg/plugin/implementation/catalogcrawler/networkcrawl.go:224-235 | One critical section: claimed only if nobody runs and it is due; busy and not-due leave the gate alone |
| `CrawlGate.Crawl.Release` | pkg/plugin/implementation/catalogcrawler/networkcrawl.go:237-241 | Release frees the flag and keeps the schedule |
| `CrawlGate.ExpiryTouchesOnlyTheEnd` | pkg/plugin/implementation/catalogcrawler/expiry.go:13-39 | Stamping succeeds exactly on objects whose validity is absent or an object, crashes exactly on a null document or a null validity, and changes nothing but validity.endDate |
| `CrawlGate.PageCrashes` | pkg/plugin/implementation/catalogcrawler/networkcrawl.go:111-136 | A page crashes the pass exactly if it holds a catalog with an id and a null validity; the check for an id is what keeps a null document from doing so |
| `CrawlGate.PageSends` | pkg/plugin/implementation/catalogcrawler/networkcrawl.go:111-136 | A page that does not crash sends on exactly one stamped copy of each catalog with an id and a usable validity, in order and under its own id |
| `CrawlGate.PublishIsFresh` | pkg/plugin/implementation/catalogcrawler/networkcrawl.go:111-136 | Every copy a page sends on ends no later than its read time plus the permitted lifetime |
| `CrawlGate.CrawlsAreSafe` | pkg/plugin/implementation/catalogcrawler/networkcrawl.go:74-241 | In every interleaving of overlapping ticks with a monotone clock: at most one crawl runs, any two start at least the interval apart, and every copy published is within its permitted lifetime |
| `CrawlGate.ClaimedExactly` | pkg/plugin/implementation/catalogcrawler/networkcrawl.go:224-235 | The gate is the caller's if and only if nobody has it and it is due or has no schedule |
| `CrawlGate.TickBeginsAPass` | pkg/plugin/implementation/catalogcrawler/networkcrawl.go:207-222 | A tick that finds the gate free and due begins a pass over all the networks |
| `CrawlGate.NetworkIsRead` | pkg/plugin/implementation/catalogcrawler/networkcrawl.go:74-104 | A pass passes over a network exactly if it permits no copies or gives no contexts |
| `CrawlGate.PageIsSent` | pkg/plugin/implementation/catalogcrawler/networkcrawl.go:111-136 | Whatever page is read, its copies are sent on |
| `CrawlGate.PassCanFinish` | pkg/plugin/implementation/catalogcrawler/networkcrawl.go:207-241 | Wherever a pass stands the run can go on until it has let the gate go |
| `CrawlGate.MayHappen` | pkg/plugin/implementation/catalogcrawler/networkcrawl.go:207-222 | Time may pass and ticks may arrive at any moment |
| `RetryBudget.PublishSweep.constructor` | pkg/plugin/implementation/catalogcrawler/publishsweep.go:429-446 | A new sweep has the budgets of the empty history |
| `RetryBudget.PublishSweep.AfterRun` | pkg/plugin/implementation/catalogcrawler/publishsweep.go:316-388 | The new budgets, whether the log is asked for a mark and whether a fault is reported, for every outcome |
| `RetryBudget.PublishSweep.Tick` | pkg/plugin/implementation/catalogcrawler/publishsweep.go:245-274 | A sweep charges every target in order and stops early only at a failed run by whose end its own context, looked at again, has ended |
| `RetryBudget.SweepsContinue` | pkg/plugin/implementation/catalogcrawler/publishsweep.go:245-274 | A sweep goes on with the history, so that what holds of every history holds across sweeps |
| `RetryBudget.MarksExactly` | pkg/plugin/implementation/catalogcrawler/publishsweep.go:316-388 | Over every history the next run asks for the mark exactly if it is a transient failure and at least the third since the last success or give-up; permanent faults never mark or spend |
| `RetryBudget.EveryThird` | pkg/plugin/implementation/catalogcrawler/publishsweep.go:316-388 | With a log that takes marks, exactly every third transient failure since the last success marks |
| `RetryBudget.RefusedIsRetried` | pkg/plugin/implementation/catalogcrawler/publishsweep.go:316-388 | A refused mark is asked for again by each later transient failure until one is taken or a run succeeds |
| `RetryBudget.PipelinesAreIndependent` | pkg/plugin/implementation/catalogcrawler/publishsweep.go:213-237 | The budget of a pipeline is what it would be if the others had never run |
| `RetryBudget.SaysExactly` | pkg/plugin/implementation/catalogcrawler/publishsweep.go:346-366 | Over every history a run reports a fault exactly if it fails permanently with another fault than the one last reported since a success or give-up |
| `RetryBudget.SaidOnce` | pkg/plugin/implementation/catalogcrawler/publishsweep.go:346-366 | A fault that goes on is said once |
| `MappingCache.Mapper.constructor` | pkg/plugin/implementation/jsonmapper/jsonmapper.go:244-271 | A new mapper has an empty cache |
| `MappingCache.Mapper.Cached` | pkg/plugin/implementation/jsonmapper/jsonmapper.go:414-425 | A hit exactly if an unexpired entry is stored, and it is that entry |
| `MappingCache.Mapper.PurgeExpired` | pkg/plugin/implementation/jsonmapper/jsonmapper.go:470-477 | A purge in any iteration order removes exactly the entries that would already be misses |
| `MappingCache.Mapper.Remember` | pkg/plugin/implementation/jsonmapper/jsonmapper.go:428-467 | The entry is stamped with CacheTTL for a success and NegativeTTL for a failure; it is stored if its reference was found or fewer than the bound were, and turned away otherwise; of the others exactly those still found stay, unchanged |
| `MappingCache.OneFetchAtATime` | pkg/plugin/implementation/jsonmapper/jsonmapper.go:382-412 | In every interleaving: at most one fetch per reference in flight, none while a live entry for it is stored, and never more entries than the bound |
| `MappingCache.FetchBeginsOnMiss` | pkg/plugin/implementation/jsonmapper/jsonmapper.go:382-412 | No fetch begins while a live entry for its reference is stored, although other callers move between the re-check and the fetch |
| `MappingCache.HitsAreFresh` | pkg/plugin/implementation/jsonmapper/jsonmapper.go:414-467 | Every hit is what one fetch of that reference produced, no longer ago than CacheTTL for a success or NegativeTTL for a failure |
| `MappingCache.AnswersAreTheirOwn` | pkg/plugin/implementation/jsonmapper/jsonmapper.go:382-412 | Every answer, joined flights included, comes from a fetch of the reference asked for |
| `MappingCache.CallerCanFinish` | pkg/plugin/implementation/jsonmapper/jsonmapper.go:382-412 | Wherever a run stands it can go on until a given caller has its answer, a caller that joined a flight included |
| `MappingCache.FoundUntilItExpires` | pkg/plugin/implementation/jsonmapper/jsonmapper.go:414-477 | In every run an entry that is found stays, unchanged, until it expires, whatever else is fetched, stored or purged |
| `MappingCache.LandedIsFound` | pkg/plugin/implementation/jsonmapper/jsonmapper.go:428-467 | The entry of a flight that found room is found from then until it expires |
| `MappingCache.FoundIsAnswered` | pkg/plugin/implementation/jsonmapper/jsonmapper.go:382-412 | A caller whose reference is found is answered with that entry in one step and no fetch is made for it |
| `MappingCache.MayHappen` | pkg/plugin/implementation/jsonmapper/jsonmapper.go:382-412 | Time may pass and callers may arrive at any moment, and a fetch may end in any result |
| `SchemaErrors.AllRuledOutBlamesPins` | pkg/plugin/implementation/schemav2validator/schema_error.go:174-241 | For well-formed trees whose alternatives are all ruled out, the report is non-empty and holds only enum and const leaves |
| `SchemaErrors.AllRuledOutReport` | pkg/plugin/implementation/schemav2validator/schema_error.go:174-241 | Without well-formedness that holds exactly if some alternative has an enum or const leaf at all |
| `SchemaErrors.AllRuledOutShape` | pkg/plugin/implementation/schemav2validator/schema_error.go:174-270 | Where no alternative has a oneOf or anyOf of its own, that can be read off the shape of the trees |
| `SchemaErrors.ShapeTells` | pkg/plugin/implementation/schemav2validator/schema_error.go:174-241 | In such a tree the walk names a cause, and an enum or const one, exactly if the shape says so |
| `SchemaErrors.StandingAloneIsReported` | pkg/plugin/implementation/schemav2validator/schema_error.go:174-241 | If an alternative still stands, the report is a sub-multiset of the leaves of the alternatives that stand |
| `SchemaErrors.RuledOutShowsWhy` | pkg/plugin/implementation/schemav2validator/schema_error.go:245-270 | The two walks agree: a well-formed tree that is ruled out has an enum or const leaf to show for it |
| `SchemaErrors.GuardWithOriginMisleads` | pkg/plugin/implementation/schemav2validator/schema_error.go:179-185 | A concrete tree, a const failure with an origin, on which the two walks disagree |
| `SchemaErrors.ConjunctsAllCount` | pkg/plugin/implementation/schemav2validator/schema_error.go:174-241 | Under a conjunction no leaf of any part is dropped |
| `SchemaErrors.KeepNearest` | pkg/plugin/implementation/schemav2validator/schema_error.go:300-320 | The loops compute the filter |
| `SchemaErrors.NearestKeepsMinimal` | pkg/plugin/implementation/schemav2validator/schema_error.go:300-334 | Kept exactly if no other alternative has a non-empty strict subset of its reasons, and every dropped one is outdone by a kept one |
| `SchemaErrors.StrictSubsetIsProper` | pkg/plugin/implementation/schemav2validator/schema_error.go:324-334 | The subset test is the non-empty proper subset relation |
| `SchemaErrors.OrderDoesNotMatter` | pkg/plugin/implementation/schemav2validator/schema_error.go:174-334 | Permuting the alternatives at any depth leaves the multiset of leaves unchanged |
| `SchemaErrors.ShuffledRuledOut` | pkg/plugin/implementation/schemav2validator/schema_error.go:245-270 | Permuting at any depth does not change what is ruled out |
| `SchemaErrors.ReportExactly` | pkg/plugin/implementation/schemav2validator/schema_error.go:174-241 | The whole report, with multiplicity and order: under a conjunction the leaves of every part; under a oneOf or anyOf those of the closest candidates, which are the alternatives that stand, or failing those the ones that fail on enum and const alone, the enum and const leaves of each, or all |
| `SchemaErrors.StandingIsReported` | pkg/plugin/implementation/schemav2validator/schema_error.go:204-241 | While an alternative stands, a leaf is reported if and only if it belongs to one that stands and that no other standing one has a non-empty strict subset of the reasons of |
| `SchemaErrors.RuledOutExactly` | pkg/plugin/implementation/schemav2validator/schema_error.go:245-270 | In a well-formed tree an alternative is ruled out if and only if a const failure in it is not behind a oneOf or anyOf; an enum failure rules nothing out |
| `SchemaErrors.OwnTells` | pkg/plugin/implementation/schemav2validator/schema_error.go:174-203 | A leaf names itself unless it is a composite or a bare not |
| `SchemaErrors.KeyTells` | pkg/plugin/implementation/schemav2validator/schema_error.go:337-339 | Leaves with the same key agree in keyword, place and reason, where none of these holds the separator |
| `WireErrors.DedupeLeaves` | pkg/plugin/implementation/schemav2validator/schema_error.go:341-353 | The loop with its seen-set computes the deduplication |
| `WireErrors.DedupeOnce` | pkg/plugin/implementation/schemav2validator/schema_error.go:341-353 | No complaint twice, none lost |
| `WireErrors.DedupeKeepsFirst` | pkg/plugin/implementation/schemav2validator/schema_error.go:341-353 | What is kept is the first leaf to make its complaint |
| `WireErrors.RankedIsStableSort` | pkg/plugin/implementation/schemav2validator/schema_error.go:122-138 | The ranking is a permutation, sorted by rank, and keeps the order within a rank |
| `WireErrors.CodesTellRanks` | pkg/plugin/implementation/schemav2validator/schema_error.go:31-61 | The wire code tells the three kinds of leaf apart |
| `WireErrors.ComplaintsOnce` | pkg/plugin/implementation/schemav2validator/schema_error.go:85-107 | Each distinct complaint of a failed composite is reported exactly once |
| `WireErrors.CodeIsLowestRank` | pkg/model/error.go:113-163 | The wire code is that of a lowest-rank leaf: SCH_FIELD_NOT_ALLOWED exactly if every leaf is a foreign field, SCH_INVALID_ENUM exactly if there is an enum or const leaf and no ordinary one |
| `WireErrors.FirstNonEmptyCode` | pkg/model/error.go:156-163 | The first non-empty code, or the fallback exactly if there is none |
| `WireErrors.PathsSurvive` | pkg/model/error.go:113-150 | The joined path splits back into every error's path if and only if no path holds the separator |
| `WireErrors.CodesExactly` | pkg/plugin/implementation/schemav2validator/schema_error.go:31-47 | The code of each keyword |
| `WireErrors.ErrorsSayLeaves` | pkg/plugin/implementation/schemav2validator/schema_error.go:85-159 | A failed schema error is reported as its ranked causes, one error each, or as itself; each says where its leaf is and why it failed |
| `WireErrors.MessagesJoin` | pkg/model/error.go:113-150 | All the messages are sent, in order, set apart by a semicolon and a space |
| `ResponseSigning.Exchange.constructor` | core/module/handler/stdHandler.go:316-349 | A request begins with its context, no signature and nothing written |
| `ResponseSigning.Exchange.SignBodyAndSetHeader` | core/module/handler/responsestep.go:254-280 | The header is set over the body exactly if signing succeeds, and otherwise the error of the key manager or signer is passed on |
| `ResponseSigning.Exchange.WriteReply` | core/module/handler/responsestep.go:72-79 | A reply carries the header as it stands when it is written |
| `ResponseSigning.Exchange.SignAndSendNack` | core/module/handler/stdHandler.go:299-313 | Signing a rejection is best effort; the bytes signed and the bytes written are computed alike |
| `ResponseSigning.Exchange.RunRequestSteps` | core/module/handler/stdHandler.go:206-217 | The steps run in order up to the first failure |
| `ResponseSigning.Exchange.RunOnResponse` | core/module/handler/responsestep.go:296-332 | The ack signer is idle before v2, fails without a subscriber, and otherwise signs the answer or the ACK it rebuilds |
| `ResponseSigning.Exchange.RunResponseSteps` | core/module/handler/stdHandler.go:270-282 | The response steps run in order up to the first failure |
| `ResponseSigning.Exchange.SendAnswer` | core/module/handler/responsestep.go:44-112 | After the response steps the answer or the ACK is written, or the rejection |
| `ResponseSigning.Exchange.Forward` | core/module/handler/stdHandler.go:435-481 | A forwarded answer is signed in its own headers; a failed step or upstream gives a gateway error |
| `ResponseSigning.Exchange.RouteRequest` | core/module/handler/stdHandler.go:370-409 | The three kinds of route, with the publisher missing, failing and publishing |
| `ResponseSigning.Exchange.ServeRequest` | core/module/handler/stdHandler.go:206-288 | The handler computes the specified exchange |
| `ResponseSigning.OneReply` | core/module/handler/stdHandler.go:206-409 | For every list of steps and every success or failure exactly one reply is written, and none exactly where the steps leave a route to a URL that has none |
| `ResponseSigning.SignedIsSent` | core/module/handler/stdHandler.go:206-409 | For every list of request and response steps, bare or wrapped, and every success or failure: every signature the adapter set is over exactly the bytes it went out with if and only if the run is not misled, that is, unless the adapter answers itself and either signs a body that it does not write, or has a later signing and then the signing of the rejection refused |
| `ResponseSigning.SignedOnceIsSent` | core/module/handler/responsestep.go:296-344 | With signAck at most once there are exactly two ways to go wrong: a step answered what was then published, or the steps moved the message id or version of the context away from the fields the ACK is signed from |
| `ResponseSigning.SignedBySteadySteps` | core/module/handler/step_instrumentor.go:52-102 | With wrapped steps that leave the values of the context alone, only the published answer is left |
| `ResponseSigning.OnceIsExact` | core/module/handler/stdHandler.go:724-759 | A request that reaches the ACK is safe in every world if and only if signAck is not listed, or is listed once and the ACK signed is the ACK written |
| `ResponseSigning.PublishedAnswerIsMissigned` | core/module/handler/responsestep.go:316-332 | One wrapped step that answers and routes to the publisher makes the signature cover the answer and not the ACK sent |
| `ResponseSigning.ContextRenameIsMissigned` | core/module/handler/step_instrumentor.go:95-101 | A wrapped step that replaces the message id in the context makes the signature cover another ACK, because the context is taken back whole |
| `ResponseSigning.BareRenameIsMissigned` | core/module/handler/step_instrumentor.go:52-55 | A step that is not wrapped does so by renaming the message in its field |
| `ResponseSigning.WrappedRenameIsSafe` | core/module/handler/step_instrumentor.go:52-102 | The same step wrapped does not |
| `ResponseSigning.WrappedKeepFields` | core/module/handler/step_instrumentor.go:95-101 | Wrapped steps cannot change the fields for version, message id and inbound signature |
| `ResponseSigning.EveryReplyIsSigned` | core/module/handler/responsestep.go:282-332 | If signAck is listed and no signing is refused, every v2 reply is signed for the subscriber, and with wrapped steps over the request's own signature, except exactly the gateway error for an upstream that did not answer |
| `ReplyContents.FailureIsTold` | core/module/handler/responsestep.go:119-204 | A request whose steps fail gets the error of the step that failed, under the status and body status of its kind, in the envelope of its version with its message id |
| `ReplyContents.RefusalIsTold` | core/module/handler/stdHandler.go:222-409 | Likewise a request that is refused after its steps: unserved, answered with no envelope, badly routed or not published |
| `ReplyContents.AnswerIsTold` | core/module/handler/responsestep.go:44-112 | Where the adapter answers itself: the answer of a step or the plain ACK with status 200, or the error the signing ended in |
| `ReplyContents.ForwardIsTold` | core/module/handler/stdHandler.go:435-481 | A forwarded request gets the status and body of the upstream, or a bare gateway error |
| `ReplyContents.SuccessIsEarned` | core/module/handler/stdHandler.go:206-409 | A reply in the two hundreds means that every step succeeded and the request was answered or forwarded, or that the error itself asked for it |
| `ReplyContents.StepsInOrder` | core/module/handler/stdHandler.go:206-217 | Steps run in order and none after one that fails |
| `ReplyContents.TakenBack` | core/module/handler/step_instrumentor.go:95-101 | What is taken back from a wrapped step, and nothing else |
| `AuthHeader.HeadersRoundTrip` | core/module/handler/responsestep.go:347-352 | Parsing a printed auth or Signature header gives back subscriber, key id, "ed25519" and signature, and the request-signature test is true exactly when one was printed |
| `AuthHeader.KeyIdRoundTrip` | core/module/handler/step.go:325-353 | The key id reads back if and only if subscriber and key are trimmed and free of quotes and bars |
| `AuthHeader.SignatureRoundTrip` | core/module/handler/step.go:487-499 | The signature reads back if and only if it has no quote |
| `AuthHeader.RequestSigRoundTrip` | core/module/handler/step.go:302-318 | The request-signature test is true exactly for headers that cover it, whatever follows |
| `AuthHeader.HeaderText` | core/module/handler/step.go:127-139 | The wording of a header, name by name and value by value |
| `AuthHeader.CoveredFieldsAre` | core/module/handler/step.go:127-139 | The list of covered fields, with and without the request signature |
| `AuthHeader.DigitsRead` | core/module/handler/step.go:127-139 | Times are printed in decimal |
| `AuditWalk.WalkMap` | pkg/telemetry/audit_fields.go:299-332 | The walk over an object, in any key order, computes the specified tree |
| `AuditWalk.WalkSlice` | pkg/telemetry/audit_fields.go:335-344 | The walk over a list computes the specified tree |
| `AuditWalk.WalkPerPath` | pkg/telemetry/audit_fields.go:299-344 | At every path: unchanged if nothing on it is masked or dropped; masked at the first masked key, with nothing below it; gone from the first dropped key on |
| `AuditWalk.WalkIsDetermined` | pkg/telemetry/audit_fields.go:299-344 | That description is complete: the walked tree is the only one it fits |
| `AuditWalk.BuildKeepSet` | pkg/telemetry/audit_fields.go:226-236 | The keep set is exactly the fields and their ancestors |
| `AuditWalk.AncestorsOf` | pkg/telemetry/audit_fields.go:226-236 | The ancestors of a dotted field are its shorter dotted beginnings |
| `AuditWalk.SelectedSurvives` | pkg/telemetry/audit_fields.go:226-344 | Every selected scalar path with no masked key on it survives unchanged |
| `AuditWalk.ProcessPayload` | pkg/telemetry/audit_fields.go:246-292 | An object is walked under the keep set of its own action, and anything else, a null included, comes back as it was |
| `AuditWalk.MaskLast4Hides` | pkg/telemetry/pii_mask.go:39-45 | The length stays, and all but the last four of more than four characters are stars |
| `AuditWalk.RuleTells` | pkg/telemetry/audit_fields.go:299-332 | A pattern by key name goes before one by path, and a field with neither is dropped exactly if fields are selected and it is not among them |
| `AuditWalk.MaskTells` | pkg/telemetry/pii_mask.go:16-37 | Which mask a value gets |
| `AuditWalk.TopLevelTells` | pkg/telemetry/audit_fields.go:246-292 | Which members of a payload are logged: those selected for its action, or by "default" where that has no entry, or all where there is neither, and masked ones in any case |
| `FacilityPayload.FacilityTypesFrom` | pkg/plugin/implementation/AgricultureFacility/payload.go:65-132 | Accepted exactly if there is a type, all are strings and none is repeated, in the order written |
| `FacilityPayload.SetInPerPath` | pkg/plugin/implementation/AgricultureFacility/payload.go:153-168 | A written part differs from the payload only at and below the addressed leaves, where it holds the value |
| `FacilityPayload.ContainersAreObjects` | pkg/plugin/implementation/AgricultureFacility/payload.go:170-197 | Everything collected is an object reached by the path |
| `FacilityPayload.ObjectsAreContainers` | pkg/plugin/implementation/AgricultureFacility/payload.go:170-197 | Every object reached by the path is collected |
| `FacilityPayload.ReadAfterWrite` | pkg/plugin/implementation/internal/common/paths.go:110-147 | Reading the configured path out of a part finds its own type and no other, once per object reached; a path that does not end in "[]" finds the list of that one type |
| `FacilityPayload.AddsNameExactly` | pkg/plugin/implementation/AgricultureFacility/payload.go:153-168 | Writing creates nothing on the way, and adds the name of the leaf exactly to the objects reached that lack it |
| `FacilityPayload.NamedCanBeSplit` | pkg/plugin/implementation/AgricultureFacility/payload.go:65-132 | A payload that names a type always has an object to write one into |
| `FacilityPayload.ReadInOrder` | pkg/plugin/implementation/internal/common/paths.go:110-147 | Each value read is what the document holds at its path, and the paths are in document order |
| `FacilityPayload.ReadMissesNothing` | pkg/plugin/implementation/internal/common/paths.go:110-147 | Every value the configured path leads to is read |
| `FacilityPayload.ContainersInOrder` | pkg/plugin/implementation/AgricultureFacility/payload.go:170-197 | Objects are collected in document order |
| `FacilityPayload.BareStringIsNamed` | pkg/plugin/implementation/AgricultureFacility/payload.go:65-132 | A bare string where a list is looked for is accepted as that one type |
| `FacilitySearch.ResourcesInOrder` | pkg/plugin/implementation/AgricultureFacility/search.go:315-339 | Resources are collected answer by answer |
| `FacilitySearch.ResourcesTell` | pkg/plugin/implementation/AgricultureFacility/search.go:296-368 | The resources of an answer are the objects in the list of its first commitment, in order |
| `FacilitySearch.Concurrency` | pkg/plugin/implementation/AgricultureFacility/search.go:377-385 | The setting, clamped to between one and eight |
| `FacilitySearch.SplitByType` | pkg/plugin/implementation/AgricultureFacility/search.go:240-275 | One part per type in order, or a refusal exactly if there is nothing to narrow, which never happens to types that were accepted |
| `FacilitySearch.PartsKeepTheMessageId` | pkg/plugin/implementation/AgricultureFacility/search.go:240-275 | A part shows the message id of the payload, unless that is where the types are |
| `FacilitySearch.PartsDifferOnlyInType` | pkg/plugin/implementation/AgricultureFacility/search.go:240-275 | Each part shows what the payload shows except at the type leaves, and names only its own type |
| `FacilitySearch.CallsKeepOrder` | pkg/plugin/implementation/AgricultureFacility/search.go:167-198 | In every completion order: never more calls than the limit, the answers in the order of the parts, and no answer at all if one part failed |
| `FacilitySearch.GroupMoves` | pkg/plugin/implementation/AgricultureFacility/search.go:377-385 | With the clamped limit the calls are never stuck |
| `FacilitySearch.MergeAnswers` | pkg/plugin/implementation/AgricultureFacility/search.go:296-358 | Merged exactly if there are answers and each has a commitment |
| `FacilitySearch.MergeIsFaithful` | pkg/plugin/implementation/AgricultureFacility/search.go:296-358 | The resources are the first occurrences among all the answers' in order, and the offer lists exactly their ids in that order |
| `FacilitySearch.MergeIsLocal` | pkg/plugin/implementation/AgricultureFacility/search.go:296-358 | Nothing else of the first answer changes |
| `FacilitySearch.MergeKeepsTheMessageId` | pkg/plugin/implementation/AgricultureFacility/search.go:296-358 | The merged answer shows the message id of the first answer |
| `FacilitySearch.FirstsAreDistinct` | pkg/plugin/implementation/AgricultureFacility/search.go:326-339 | No non-empty id is kept twice |
| `FacilitySearch.FirstsKeepIds` | pkg/plugin/implementation/AgricultureFacility/search.go:326-339 | No id is lost |
| `FacilitySearch.RawIdsAre` | pkg/plugin/implementation/AgricultureFacility/search.go:342-352 | One id per resource, in order |
| `FacilitySearch.GroupIsWhole` | pkg/plugin/implementation/AgricultureFacility/search.go:167-358 | In every completion order a finished group has no answer exactly if some call was not served or its answer has no commitment, and otherwise merges the answers in the order of the parts |
| `FacilitySearch.SearchIsWhole` | pkg/plugin/implementation/AgricultureFacility/search.go:107-151 | For every payload that names its types and every completion order: no answer exactly if some named type's own part was not served with a commitment; otherwise the resources of all those parts, first occurrences, in the order the types were named |
| `PayloadStore.Lifetimes` | pkg/plugin/implementation/payloadstore/payloadstore.go:48-72 | Accepted exactly if the entry lifetime is positive and the index lives at least as long |
| `PayloadStore.TextTellsKeys` | pkg/plugin/implementation/payloadstore/payloadstore.go:112-118 | No two keys of a namespace share their text |
| `PayloadStore.Store.constructor` | pkg/plugin/implementation/payloadstore/payloadstore.go:227-239 | A new store is empty |
| `PayloadStore.Store.StorePayload` | pkg/plugin/implementation/payloadstore/payloadstore.go:243-304 | The cache after storing: the policies applied, the entry written and its transaction indexed |
| `PayloadStore.Store.AppendToIndex` | pkg/plugin/implementation/payloadstore/payloadstore.go:306-332 | The id is listed once; an id already listed returns early and leaves the index as it was |
| `PayloadStore.Store.GetByTransactionId` | pkg/plugin/implementation/payloadstore/payloadstore.go:335-359 | The loop over the index collects the entries it reaches |
| `PayloadStore.Store.GetByMessageId` | pkg/plugin/implementation/payloadstore/payloadstore.go:362-376 | The unexpired entry of the id, if it is of the action asked for |
| `PayloadLookup.LookupIsTheListing` | pkg/plugin/implementation/payloadstore/payloadstore.go:276-359 | For every log, repeated ids included: the lookup returns the last payload of each id in the running listing, whichever transaction that payload belongs to, in the order of the listing |
| `PayloadLookup.ListingIsFirstIds` | pkg/plugin/implementation/payloadstore/payloadstore.go:306-332 | The listing is the ids of the transaction, each at its first occurrence since the record that began the index |
| `PayloadLookup.StoreIsExact` | pkg/plugin/implementation/payloadstore/payloadstore.go:276-359 | A store keeps every later lookup equal to the unexpired last-stored entries of the transaction, in store order, if and only if it was safe: the message was not listed under another transaction, and under its own was either not listed, or listed behind every unexpired message in an index that outlives it |
| `PayloadLookup.ExactIffSafe` | pkg/plugin/implementation/payloadstore/payloadstore.go:276-359 | For every timed log, repeated ids included: the lookups of a transaction are always what they ought to be if and only if every store was safe for it |
| `PayloadLookup.LookupIsTheLog` | pkg/plugin/implementation/payloadstore/payloadstore.go:276-359 | For every timed log of distinct messages, at every later time, the lookup is exactly the unexpired entries of the transaction in store order, as a case of the above |
| `PayloadLookup.NothingUntitled` | pkg/plugin/implementation/payloadstore/payloadstore.go:298-303 | A message without a transaction is listed nowhere |
| `PayloadStore.MessageLookup` | pkg/plugin/implementation/payloadstore/payloadstore.go:362-376 | For every log the message lookup is the last payload stored under the id, if unexpired and of the action |
| `PayloadStore.RestoreIsExact` | pkg/plugin/implementation/payloadstore/payloadstore.go:306-332 | Storing keeps an index complete if and only if it does not hit the early return on an index due to lapse before the message |
| `PayloadStore.CompleteIffNeverLapses` | pkg/plugin/implementation/payloadstore/payloadstore.go:276-332 | For every timed log, repeated ids included, an index never misses an unexpired entry if and only if no store lapses |
| `PayloadLookup.RestoredIsLost` | pkg/plugin/implementation/payloadstore/payloadstore.go:317-321 | A message stored again before its index lapses is lost to the transaction lookup from then until it expires, while the message lookup still finds it |
| `PayloadLookup.RestoredElsewhere` | pkg/plugin/implementation/payloadstore/payloadstore.go:345-358 | A message stored again for another transaction is found under the first one |
| `PayloadLookup.RestoredKeepsItsPlace` | pkg/plugin/implementation/payloadstore/payloadstore.go:334-359 | A message stored again comes before messages that were stored before it |
| `PayloadStore.KeptObeys` | pkg/plugin/implementation/payloadstore/payloadstore.go:276-290 | The policies drop what is forbidden, cut a body at the limit, stamp the times and change nothing else |
| `PayloadStore.LookupsObey` | pkg/plugin/implementation/payloadstore/payloadstore.go:276-376 | For every log no lookup returns a body or signature that is not to be stored, or a body over the limit |
| `Router.Router.constructor` | pkg/plugin/implementation/router/router.go:62-76 | A new router has no rules |
| `Router.Router.NewRoute` | pkg/plugin/implementation/router/router.go:118-148 | The route a rule gives an endpoint, with a URL of its own |
| `Router.Router.AddEndpoint` | pkg/plugin/implementation/router/router.go:115-157 | An endpoint is added unless a v2 version has it already |
| `Router.Router.AddEndpoints` | pkg/plugin/implementation/router/router.go:115-157 | The endpoints of a rule are accepted exactly if none repeats |
| `Router.Router.AddRule` | pkg/plugin/implementation/router/router.go:97-157 | The table goes on agreeing with the rules |
| `Router.Router.Load` | pkg/plugin/implementation/router/router.go:79-160 | Rules are accepted exactly if each is valid and no v2 endpoint is repeated, and the table then agrees with them |
| `Router.TableIsScan` | pkg/plugin/implementation/router/router.go:97-160 | For every key the three-level table answers as a scan of the rule list does, the last match winning |
| `Router.OneRuleForV2` | pkg/plugin/implementation/router/router.go:150-155 | After a load at most one rule matches a v2 key |
| `Router.EntriesScan` | pkg/plugin/implementation/router/router.go:97-160 | Loading endpoint by endpoint comes to scanning rule by rule |
| `Router.Router.RouteRequest` | pkg/plugin/implementation/router/router.go:222-294 | Every request is answered as the scan says, and nothing that existed is written |
| `Router.Router.RouteBodyless` | pkg/plugin/implementation/router/router.go:312-338 | A request without a body is answered from some version under the wildcard that has its endpoint |
| `Router.Router.MapProtocol` | pkg/plugin/implementation/router/router.go:356-380 | The request's own destination, or the rule's, with the query on a fresh URL |
| `Router.Router.FixedRoute` | pkg/plugin/implementation/router/router.go:283-292 | A fixed destination with the query on a clone |
| `Router.Router.RouteAll` | pkg/plugin/implementation/router/router.go:222-380 | After any sequence of requests the table is what was loaded, and every answer is still what the scan says |
| `Router.BodylessIsV2Exactly` | pkg/plugin/implementation/router/router.go:312-338 | Every version that can answer an endpoint under the wildcard is v2 if and only if no rule of an earlier version is written for the domain "*" and lists it |
| `Router.BodylessReachesEarlierVersions` | pkg/plugin/implementation/router/router.go:312-338 | In every list that holds such a rule, it may answer a request without a body |
| `Router.BodylessIsOneExactly` | pkg/plugin/implementation/router/router.go:312-338 | A request without a body has one answer, whatever order the map is walked in, if and only if all the versions that list its endpoint route it alike |
| `RouteAnswers.AnswerIsItsRule` | pkg/plugin/implementation/router/router.go:222-294 | A request with a body goes where the last rule that matches it says: for the BPP to the BPP's URI or else the rule's URL, for the BAP to the BAP's, to a fixed URL or to a publisher; with base, path and query |
| `RouteAnswers.OtherPartyIsIgnored` | pkg/plugin/implementation/router/router.go:278-286 | The URI of the other party makes no difference |
| `RouteAnswers.UnmatchedIsRefused` | pkg/plugin/implementation/router/router.go:251-276 | Without a rule that matches there is no route, and the fault says what is missing |
| `RouteAnswers.BodylessIsItsRule` | pkg/plugin/implementation/router/router.go:312-338 | A request without a body that gets a route gets that of a rule under the wildcard that lists its endpoint and fixes the destination |
| `RouteAnswers.RuleNeeds` | pkg/plugin/implementation/router/router.go:166-203 | What a rule needs to be accepted |
| `Base64.RoundTrip` | pkg/plugin/implementation/encrypter/encrypter.go:47-47 | Every byte string comes back from its base 64 text |
| `Base64.SymbolsAre` | pkg/plugin/implementation/encrypter/encrypter.go:25-33 | The alphabet and its values, as in section 4 of RFC 4648 |
| `Base64.DigitsAreBits` | pkg/plugin/implementation/encrypter/encrypter.go:47-47 | Three bytes are four digits of six bits, most significant first |
| `BlockCrypto.EachBlockAt` | pkg/plugin/implementation/encrypter/encrypter.go:43-45 | Every block is replaced by what the cipher makes of that block |
| `BlockCrypto.DecryptFaults` | pkg/plugin/implementation/decrypter/decrypter.go:27-65 | Which error a decryption ends in |
| `BlockCrypto.UnpadPad` | pkg/plugin/implementation/encrypter/encrypter.go:42-42 | Unpadding undoes padding |
| `BlockCrypto.OverwriteBlock` | pkg/plugin/implementation/encrypter/encrypter.go:44-44 | One block is written over itself and nothing else changes |
| `BlockCrypto.RunBlocks` | pkg/plugin/implementation/decrypter/decrypter.go:54-57 | The in-place loop replaces every block of the buffer |
| `BlockCrypto.EachBlockInverts` | pkg/plugin/implementation/decrypter/decrypter.go:54-57 | A pass with the inverse block function undoes a pass |
| `BlockCrypto.Encrypt` | pkg/plugin/implementation/encrypter/encrypter.go:24-48 | The result, or the error of the first step that fails |
| `BlockCrypto.Decrypt` | pkg/plugin/implementation/decrypter/decrypter.go:27-65 | The message, or the error of the first step that fails, a ciphertext of broken length included |
| `BlockCrypto.DecryptEncrypt` | pkg/plugin/implementation/decrypter/decrypter.go:27-65 | For every message and any two key pairs, decrypting the encryption gives the message back; encryption fails only where no secret can be derived |
| `BlockCrypto.EncryptDecrypt` | pkg/plugin/implementation/decrypter/decrypter.go:27-65 | Encrypting what was decrypted gives the text back if and only if the text is the plain base 64 of its bytes and those were padded by no more than a block |

## Left out

- JSON trees are values here: `walkMap`, `setAt` and `mergeAnswers` update shared maps in place, and the model does not capture aliasing between the nodes of one tree.
- AuditWalk.WalkMap: the in-place update of the node is modelled by reassigning a map value, because a JSON tree is a value here; the order in which keys are visited is arbitrary.
- Router.Router.RouteBodyless: which version answers is left open, because Go's map order is; `BodylessIsOneExactly` says when it does not matter.
- SchemaErrors.AllRuledOutBlamesPins: assumes an origin is a list or a wrapper and that a const failure has none, which is how the schema library builds its errors; `AllRuledOutReport` needs no such assumption.
- ResponseSigning.SignedIsSent: assumes that no step writes the Signature header itself.
- PayloadLookup.ExactIffSafe: concurrent stores for one transaction may lose index entries, since the cache has no atomic append; stores are one after the other here, and the cache never fails.
- Starting the scheduler twice.
- The other branches of `extractSchemaErrors`, for errors that are not a composite schema failure, and the shortening of messages in `withoutDetails`.
- The refusal of a search that names more than eight types, and recognising whose payload it is: single branches.
- The text of JSON and YAML, gzip, HTTP, Redis, RabbitMQ, Vault, files, and the encoding of envelopes as bytes.
- The strength of Ed25519, BLAKE2b, AES and X25519, and the verification of inbound signatures.
- BlockCrypto.EncryptDecrypt: the padding library is not part of the repository; padding follows section 6.3 of RFC 5652, and that a padding longer than a block is accepted (`LongPadding`) is an assumption, drawn from unpadding being given no block size.
- CrawlGate.PageCrashes: the id of a catalog is read from the member named exactly "id", while Go also takes the name in other letter cases.
- What is handed to the publisher and to the upstream, response headers other than Signature, streaming of forwarded bodies, and failures while writing a reply.
- The JSONata, OPA and JSON Schema engines, `pipeline.Run`, the crawl manager and catalog publishing beyond what the sweep and the crawl see of them.
- Telemetry, logging, metrics, plugin loading and configuration parsing.
