# Proofs about the routing core of dnsproxy-router

The program answers DNS queries by racing several upstreams behind a response cache.  This project
models its core and proves what the parts promise each other:

* **The response cache.** `Heap`, `Store` and `ResponseCache` are classes that work as the program
  does: a map, a list or a heap whose entries know their index, a running total, and messages that
  are copied on the way in and out.  They are proved to do what `Eviction` and `CacheSpec` say about
  maps of stamped records.  `Runs` and `CacheRuns` then speak about whole runs: who is evicted, which
  response an answer comes from, how its TTL moves.  `CacheKey` and `Ttl` are the key and the TTL rules.
* **The race and its breaker.** `Breaker` and `Racing` are the program's classes and loops, for every
  order of arrival and every choice of the window timer.  `RaceProtocol` has the same race as
  goroutines and a channel, step by step.
* **The coalescer and the caching layer.** `Coalescer` and `Caching` are step systems: every
  interleaving of any number of clients and refreshes, cut at locks, waits and channel operations.
  What clients get at the end is said in terms of what upstreams replied in the course of the run.
* **The scheduler.** `Lifecycle`, `Scheduler` and `Reload` follow upstreams through probe rounds,
  delayed closes and a reload, against a clock, and `SchedulerRuns` through any sequence of these;
  `Signature` is the text by which rounds recognise an unchanged selection.
* **Requests and settings.** `Edns` is what the handler does to a request; `Config` is the parser of
  durations and the part of `normalize` that the above relies on.

`dafny verify dfyconfig.toml` checks everything.

## How to read the model

* A `Store` counts its operations in a ghost clock.  A record's `born`, `touched` and `uses` are stamps
  of that clock; `Runs.StampsAreHistory` says that they are facts about the operations made.
* Times and durations are integers in nanoseconds.  Whole seconds are floors: the program goes through
  a float, which is exact below about 2^23 s.  Conversions to `uint32` wrap, and theorems that need it ask
  for durations below 2^32 s.
* The length that the DNS library reports for a message, clocks, upstream replies, probe outcomes and map
  iteration orders are parameters or free choices.
* `Regular` asks for a name without `|` and for addresses whose length the family fixes, whatever the length
  is, or IPv4 addresses mapped into sixteen bytes.  The program writes an address as the DNS library holds it,
  and that library is not part of this model; `CacheKey.ReceivedKeysSeparate` allows both forms of an IPv4
  address.  `PlainNames` asks for provider names without NUL and `=` and for addresses without `;`.
  The program checks none of this.  `CacheKey.BarredNameMeets`, `CacheKey.LooseAddressMeets` and
  `Signature.SignaturesCollide` show what happens otherwise.

## Where the code and its comments differ

The model follows the code:

* A replacement never evicts, so the total may exceed the limit until the next insertion
  (`Runs.BoundStep`, `Runs.ReplacingOverflows`); a lone entry above the limit stays.
* Eviction under a policy that is not fifo, lru or lfu removes nothing, so making room would not end;
  `CanPut` is the guard, and the configuration provides it (internal/config/config.go:405-409).
* At the very time of expiry both Get and GetStale answer.
* After the cooldown the breaker admits every caller, not one half-open probe
  (internal/scheduler/breaker.go:9-11 says one).  With one member it is neither asked nor told.
* A reply without response and error is a success for the breaker and none for the race.
* The cache is asked before the coalescer, so a burst can fetch twice; only flights never overlap.
* A reload gives the old scheduler the new configuration's grace, so with a shorter probe timeout it can
  close upstreams under requests that still run (`Reload.ReloadIsSafeIff`).
* `closeAllLive` leaves `current` in place, so current and live agree only until then.
* With a fixed `cache_ttl` nothing caps how long a SERVFAIL is kept, so the five minutes of section 7.1 of
  RFC 2308 are not guaranteed (`Config.FixedLifetimeHasNoCap`).

## Model

| member | source | states |
|---|---|---|
| `Heap.LfuHeap.Swap` | internal/cache/cache.go:374-378 | two slots change places and both entries keep knowing their index |
| `Heap.LfuHeap.Up` | internal/cache/cache.go:363-394 | sifting up restores the order by (frequency, sequence) when only one entry was out of place; the same entries, all indices right |
| `Heap.LfuHeap.Down` | internal/cache/cache.go:363-394 | sifting down does the same, and says whether the entry moved |
| `Heap.LfuHeap.Fix` | internal/cache/cache.go:315-317 | after one entry's frequency changed, the heap is in order again |
| `Heap.LfuHeap.HeapPush` | internal/cache/cache.go:380-384 | the heap holds one entry more, in order, indices right |
| `Heap.LfuHeap.HeapPop` | internal/cache/cache.go:386-394 | the root leaves with index -1; the rest is a heap of all other entries |
| `Heap.LfuHeap.HeapRemove` | internal/cache/cache.go:329-332 | any entry, found by its own index, leaves with index -1; the rest is a heap of all others |
| `Heap.RootIsLeast` | internal/cache/cache.go:362-372 | in an ordered heap no entry ranks below the root |
| `Store.Store.RemoveEntry` | internal/cache/cache.go:322-333 | the entry leaves the map, the list or the heap, and the total, in one step; on the LFU eviction path it has left the heap already and is not removed a second time |
| `Store.Store.Touch` | internal/cache/cache.go:307-319 | one use: last in the list under LRU, one more use and a fixed heap under LFU, nothing under FIFO; everything still agrees |
| `Store.Store.ReplaceEntry` | internal/cache/cache.go:296-304 | new contents and one use under the old insertion; the total moves by the difference |
| `Store.Store.InsertEntry` | internal/cache/cache.go:271-293 | a new key enters all structures with the insertion as its first use |
| `Store.Store.EvictOne` | internal/cache/cache.go:346-360 | removes exactly the entry that the policy names, and nothing under an unknown policy |
| `Store.Store.EvictFor` | internal/cache/cache.go:336-343 | terminates for the known policies and leaves what the policy's eviction function leaves |
| `Store.Store.Lookup` | internal/cache/cache.go:112-124 | on the structures, a lookup does what the abstract lookup does to the stamped records |
| `Store.Store.LookupStale` | internal/cache/cache.go:145-179 | a stale lookup changes no order; past the stale time the entry leaves every structure |
| `Store.Store.Put` | internal/cache/cache.go:199-207 | replaces a present key without evicting, makes room for a new one first |
| `Store.Store.Reset` | internal/cache/cache.go:261-268 | an empty store, in which all structures agree again |
| `StoreRuns.Replay` | internal/cache/cache.go:271-360 | after any sequence of operations, under each policy, map, list, heap indices, heap order and total agree, and stand for the run of the same operations |
| `Eviction.VictimExists` | internal/cache/cache.go:346-360 | while something is stored, each known policy names an entry |
| `Eviction.VictimIsUnique` | internal/cache/cache.go:346-360 | and only one |
| `Eviction.EvictForMakesRoom` | internal/cache/cache.go:336-343 | making room gives up a prefix of the policy's order, ends when the rest fits or nothing is left, and takes no victim too many |
| `Eviction.MadeRoomDecides` | internal/cache/cache.go:336-343 | these three facts leave no choice: only one outcome has them |
| `Eviction.TotalWithout` | internal/cache/cache.go:322-326 | the total is the sum of the sizes: without an entry it is less by that entry's size |
| `Eviction.PutKeepsWF` | internal/cache/cache.go:182-208 | stamps stay distinct and in the past when a value is stored |
| `Runs.Run` | internal/cache/cache.go:103-208 | every run keeps the stamps distinct, ordered and in the past |
| `Runs.StampsAreHistory` | internal/cache/cache.go:307-319 | an entry's stamps are facts about the operations: its last insertion, its last use, and how often it was used since that insertion; a stale hit is no use |
| `Runs.EvictionFollowsHistory` | internal/cache/cache.go:336-360 | what an insertion evicts goes before what it keeps: earlier insertion for FIFO, earlier last use for LRU, fewer uses and then earlier insertion for LFU |
| `Runs.OnlyTheseRemove` | internal/cache/cache.go:103-208 | an entry leaves only by Clear, by an insertion that must make room, or by a lookup past its stale time |
| `Runs.InsertMakesRoom` | internal/cache/cache.go:202-207 | after an insertion the total is within the limit or the new entry is alone, whatever the total was before |
| `Runs.ReplaceShiftsTotal` | internal/cache/cache.go:202-205 | a replacement evicts nothing and moves the total by exactly the difference in size |
| `Runs.BoundStep` | internal/cache/cache.go:296-304 | the bound is lost by one kind of operation only: exactly when a replacement beside another entry overflows the limit |
| `Runs.BoundOverRuns` | internal/cache/cache.go:336-343 | so it holds at the end of every run without such a replacement |
| `Runs.ReplacingOverflows` | internal/cache/cache.go:296-304 | and it is no invariant: under every policy three writes exceed the limit with two entries stored |
| `Runs.RunRefinesPlain` | internal/cache/cache.go:103-208 | apart from eviction the store is a plain map of the last writes; without a limit, exactly that map |
| `Runs.PlainIsLastWrite` | internal/cache/cache.go:103-208 | that map holds a key from its last write until a lookup finds it past its stale time, and no longer |
| `ResponseCache.Cache.constructor` | internal/cache/cache.go:85-98 | an empty cache with the configuration given, LRU for a policy left out and 30 s for stale answers without a positive TTL |
| `ResponseCache.Cache.Get` | internal/cache/cache.go:103-140 | answers as the abstract cache does, with a message of its own that nobody else holds; no argument is changed |
| `ResponseCache.Cache.GetStale` | internal/cache/cache.go:145-179 | likewise for stale answers; ok says whether there is one |
| `ResponseCache.Cache.Set` | internal/cache/cache.go:182-208 | stores a copy made for the cache; a nil, a message without its one question, an uncacheable response and a zero lifetime store nothing |
| `ResponseCache.Cache.Write` | internal/cache/cache.go:199-207 | the locked part: the value put under the key holds a new copy that no caller has, the size with the key, and both deadlines |
| `ResponseCache.Cache.Clear` | internal/cache/cache.go:261-268 | nothing is stored any more |
| `ResponseCache.Cache.Clamp` | internal/cache/cache.go:214-238 | rewrites the caller's response in place and returns it; a nil comes back as nil |
| `ResponseCache.Cache.Size` | internal/cache/cache.go:254-258 | reports the sum of the sizes of what is stored |
| `Reading.ReadLookup` | internal/cache/cache.go:126-137 | looking up does not depend on what messages say, so copies stand for their values |
| `Reading.ReadPut` | internal/cache/cache.go:182-208 | nor does storing, with the evictions it needs |
| `Ttl.ComputeRecordTtl` | internal/cache/cache.go:459-481 | the loop over the three sections finds the lifetime of the whole message |
| `Ttl.RecordTtlBound` | internal/cache/cache.go:459-481 | a lifetime exceeds no record's TTL, and SERVFAIL is capped at 30 s; it is zero exactly for a truncated message, another number of questions than one, a zero TTL, or no TTL below the sentinel |
| `Ttl.RecordTtlIs` | internal/cache/cache.go:459-481 | the lifetime is the least TTL of the records in the three sections, but 30 at most for SERVFAIL |
| `Ttl.CacheableIs` | internal/cache/cache.go:440-455 | exactly which messages may be cached: whole ones with one question that are a server failure, a name error with an SOA, or a success, which for an address question needs an address or an SOA |
| `Ttl.LeastTtlIsLeast` | internal/cache/cache.go:464-473 | the least TTL bounds all non-OPT records and is one of them |
| `Ttl.SetTtl` | internal/cache/cache.go:484-493 | in place, every record but OPT gets the TTL, and nothing else changes |
| `Ttl.WithTtlIs` | internal/cache/cache.go:484-493 | that is: the same header, and in each section the same records with the TTL, OPT untouched, and nothing else qualifies |
| `Ttl.ClampMessage` | internal/cache/cache.go:214-238 | in place, the loop clamps every record as the clamping function does |
| `Ttl.ClampIs` | internal/cache/cache.go:214-238 | for any bounds, section by section: what is below goes to the lower bound, what is above to the upper, all else stays; this determines the message |
| `Ttl.ClampMeetsBounds` | internal/cache/cache.go:214-238 | with ordered bounds every non-OPT TTL lands between them |
| `Ttl.ClampKeepsOrder` | internal/cache/cache.go:225-234 | no two TTLs change their order |
| `Ttl.ClampTwice` | internal/cache/cache.go:214-238 | clamping again changes nothing |
| `Ttl.ClampedLifetime` | internal/cache/cache.go:459-481 | a lifetime that follows the records lies between the same bounds, apart from the 30 s cap on SERVFAIL |
| `CacheKey.ComputeKey` | internal/cache/cache.go:407-437 | the pieces written in the loop make up the key of the request's identity |
| `CacheKey.ReadWritten` | internal/cache/cache.go:407-437 | the key has a left inverse: name in lower case, type, class, DO flag and all client subnets can be read back, for names without '|' and addresses of any length fixed for the family, or an IPv4 address mapped into sixteen bytes |
| `CacheKey.KeysSeparate` | internal/cache/cache.go:407-437 | for these two requests share a key exactly when all of that agrees |
| `CacheKey.LowerMeetsCase` | internal/cache/cache.go:411 | two names are one in a key exactly when they are equal but for the case of ASCII letters |
| `CacheKey.RequestsShareKey` | internal/cache/cache.go:407-437 | said of the requests themselves: one key exactly when the names agree but for case, and type, class, DO flag and the client subnets of the last OPT record agree, whatever other options there are |
| `CacheKey.ReceivedKeysSeparate` | internal/cache/cache.go:424-435 | in particular for IPv4 subnets held as four bytes or as mapped sixteen, even both ways in one request, and IPv6 subnets of sixteen; of names only the bar is excluded |
| `CacheKey.BarredNameMeets` | internal/cache/cache.go:411-435 | a name with '|' can share its key with a request for a subnet |
| `CacheKey.LooseAddressMeets` | internal/cache/cache.go:424-435 | an illustration of why lengths have to be fixed: an address with bars in it, which no parser and no prefix yields, could spell out a list of two subnets |
| `CacheRuns.AfterIsRun` | internal/cache/cache.go:103-208 | runs of Get, GetStale, Set and Clear are runs of the store |
| `CacheRuns.RecordIsLatest` | internal/cache/cache.go:182-208 | what is stored under a key is what its latest accepted Set stored |
| `CacheRuns.SetAccepts` | internal/cache/cache.go:182-195 | exactly what Set stores: one question in the request, a cacheable response, and, when lifetimes follow the records, some TTL below the sentinel and none of zero |
| `CacheRuns.PresentKeyHolds` | internal/cache/cache.go:196-207 | the entry holds the response that was set, and counts the reported length plus that of the key |
| `CacheRuns.PresentKeyAnswers` | internal/cache/cache.go:112-179 | for a present key Get answers iff now <= expire, GetStale iff expire <= now <= staleUntil (both at expire itself); past staleUntil neither does and the entry goes |
| `CacheRuns.PresentKeyWindows` | internal/cache/cache.go:112-194 | after any run, counted from the latest accepted Set: Get answers up to cache_ttl if that is positive, else up to the least TTL of the response (30 s at most for SERVFAIL); GetStale from then on for StaleMaxAge |
| `CacheRuns.GetAnswersLatest` | internal/cache/cache.go:103-140 | a fresh answer is the latest accepted response of its key, within its lifetime; only TTLs differ, so Id and question are the stored ones |
| `CacheRuns.GetStaleAnswersLatest` | internal/cache/cache.go:145-179 | a stale answer too, no longer than StaleMaxAge after its expiry |
| `CacheRuns.FreshSaysResponse` | internal/cache/cache.go:126-137 | a fresh answer has the header of the response and, in each section, its records with one TTL |
| `CacheRuns.StaleSaysResponse` | internal/cache/cache.go:162-176 | and so has a stale one |
| `CacheRuns.AnswersAskedQuestion` | internal/cache/cache.go:407-437 | the answer was stored for a request that asks the same, said of the two requests themselves, under the same hypothesis as KeysSeparate |
| `CacheRuns.FreshTtlMeets` | internal/cache/cache.go:127-137 | a fresh TTL is at least 1, at most the maximum, and ends at most a second after the entry does |
| `CacheRuns.FreshTtlIs` | internal/cache/cache.go:127-137 | exactly the whole seconds that are left, one at least and the maximum at most |
| `CacheRuns.StaleTtlIs` | internal/cache/cache.go:162-176 | a stale answer has the configured TTL in whole seconds, one at least and the maximum at most |
| `CacheRuns.TtlsNeverRise` | internal/cache/cache.go:127-137 | between two Sets of a key the TTLs of its answers never rise in any record, are at least 1 and at most the maximum, whatever other operations come in between |
| `CacheRuns.AnswersNeverOutlive` | internal/cache/cache.go:187-194 | an answer's TTLs end at most a second after the entry does; when lifetimes follow the records, none exceeds that of the record as stored |
| `Breaker.Breaker.ReportResult` | internal/scheduler/breaker.go:58-85 | the counters are at any time a function of the member's reports; an index out of range changes nothing |
| `Breaker.Breaker.Pick` | internal/scheduler/breaker.go:42-55 | exactly the members that are not shut out, in ascending order; asking changes nothing |
| `Breaker.TrailingFailuresIsLongest` | internal/scheduler/breaker.go:75-84 | the count is the length of the longest run of failures at the end of the reports |
| `Breaker.OpensAtThreshold` | internal/scheduler/breaker.go:75-94 | the member is shut out exactly when as many of its last reports as the threshold all failed and the last of them is within the cooldown |
| `Breaker.CooldownAdmitsEveryone` | internal/scheduler/breaker.go:88-94 | a member is shut out exactly until the cooldown after its last failure; from then on every caller gets it, not one probe |
| `Breaker.NextReportDecides` | internal/scheduler/breaker.go:58-85 | the next failure shuts it out again at once, the next success clears everything |
| `Breaker.SuccessForgives` | internal/scheduler/breaker.go:75-84 | after a success fewer failures than the threshold shut nobody out |
| `Breaker.EmptyRepliesNeverOpen` | internal/scheduler/racing.go:84-86 | a reply without response and without error is no failure for the breaker, however often it comes |
| `Racing.CollectFastest` | internal/scheduler/racing.go:89-103 | the first success in order of arrival, else the last error, else no reply |
| `Racing.PickWeighted` | internal/scheduler/racing.go:154-165 | a success that none of the collected ones beats by weight and then by time |
| `Racing.CollectWeighted` | internal/scheduler/racing.go:121-151 | for every choice between arrivals and timer the race ends with a prefix of the arrivals that is complete or holds a success, and returns its best success |
| `Racing.RaceFailsOnlyIfAllFail` | internal/scheduler/racing.go:77-151 | either mode fails exactly when no candidate replies with a response and no error, and otherwise returns a candidate's own reply of that kind |
| `Racing.RacingUpstream.Candidates` | internal/scheduler/racing.go:58-67 | all members, or exactly those the breaker lets in |
| `Racing.RacingUpstream.Launch` | internal/scheduler/racing.go:80-87 | in any order, one result and one report from each candidate, and none about others |
| `Racing.RacingUpstream.Exchange` | internal/scheduler/racing.go:44-55 | no member, one member asked past the breaker, or a race of the members let in, with one report each |
| `RaceProtocol.StepKeepsInv` | internal/scheduler/racing.go:77-151 | every step of the goroutines and the collector keeps: one report each, distinct sends, the collector's candidates and last error those of what it received, a settled return |
| `RaceProtocol.ReturnSettles` | internal/scheduler/racing.go:89-103 | what either collector returns from the candidates and the last error that it holds is what the race promises for the results received |
| `RaceProtocol.ReturnsWhen` | internal/scheduler/racing.go:89-151 | the collector can return exactly from the first response without error on, or when it has all results; the fastest mode then takes no other, the weighted mode may |
| `RaceProtocol.SendNeverBlocks` | internal/scheduler/racing.go:79-87 | the channel is never full for a goroutine that wants to send, whether or not the collector has returned |
| `RaceProtocol.SomeMove` | internal/scheduler/racing.go:77-151 | until all is over, something can move |
| `RaceProtocol.EveryRunEnds` | internal/scheduler/racing.go:77-151 | every interleaving ends within 4n + 1 steps with one report and one send from each goroutine, and what the collector computed from its own variables is the reply promised for the order of the sends |
| `Coalescer.StepKeepsInv` | internal/scheduler/coalescer.go:26-60 | every step of every caller keeps the table, the flights, the results and the ownership of messages sound |
| `Coalescer.RunKeepsInv` | internal/scheduler/coalescer.go:26-60 | so every interleaving of any number of callers does |
| `Coalescer.JoinsOrLeads` | internal/scheduler/coalescer.go:31-43 | a call waits for the flight of its key that is led at that time, and for no other |
| `Coalescer.ResultIsGiven` | internal/scheduler/coalescer.go:45-51 | what the function returns, message or none, error or none, is the flight's and in the leader's hand |
| `Coalescer.OneLeaderPerKey` | internal/scheduler/coalescer.go:36-56 | between registering and deleting a key has one leader, and the entry it deletes by key is its own |
| `Coalescer.FlightsNeverOverlap` | internal/scheduler/coalescer.go:31-56 | when a flight is registered, all earlier flights of its key are done, deleted and returned from |
| `Coalescer.WaitersHaveLeader` | internal/scheduler/coalescer.go:31-38 | nobody waits for a flight that is not done unless its leader is still at work |
| `Coalescer.SomebodyMoves` | internal/scheduler/coalescer.go:26-60 | a caller that has not returned can move, or the leader it waits for can |
| `Coalescer.WaiterReturnsCopy` | internal/scheduler/coalescer.go:33-37 | a waiter returns a new message that says what its flight's result says, or without one the flight's error |
| `Coalescer.LeaderReturnsResult` | internal/scheduler/coalescer.go:54-59 | deleting, the leader returns what it has in hand: the message of its flight's result, and the flight's error |
| `Coalescer.LeadersGetTheirResult` | internal/scheduler/coalescer.go:45-59 | over any run a leader returns exactly the message and the error that its function returned, and each function has returned once |
| `Coalescer.WaitersGetTheLeadersResult` | internal/scheduler/coalescer.go:33-37 | over any run a waiter returns a copy of the message that the function of its flight's leader returned, or without a message that function's error |
| `Coalescer.CallersCannotInterfere` | internal/scheduler/coalescer.go:47-51 | whatever callers do to messages they were given, what waiters will copy stays as it was |
| `Coalescer.TogetherYetTwice` | internal/scheduler/racing.go:202-212 | callers that arrive together can still make two calls, one after the other: a flight is one call, a burst need not be |
| `Caching.StepKeepsInv` | internal/scheduler/racing.go:195-244 | every step of clients, refreshes and flights keeps: Sets of one key follow its flights in order, one each at most, and store what the flight fetched |
| `Caching.RunKeepsInv` | internal/scheduler/racing.go:195-244 | so every interleaving does |
| `Caching.FreshAnswersFollowFlights` | internal/scheduler/racing.go:202-204 | a client served from the cache gets the result of the latest accepted flight of its key, within its lifetime |
| `Caching.StaleAnswersFollowFlights` | internal/scheduler/racing.go:207-210 | with a stale answer too, at most StaleMaxAge after the expiry, and a refresh under the same key is on its way |
| `Caching.StepKeepsClamped` | internal/scheduler/racing.go:217-223 | with ordered bounds, no step brings about a flight result that is not clamped |
| `Caching.RunKeepsClamped` | internal/scheduler/racing.go:217-223 | so over every interleaving whatever a flight returns to its leader, its waiters and the cache is clamped |
| `Caching.FetchKeepsInv` | internal/scheduler/racing.go:212-224 | a flight that returns sets its result once, while no other flight of the key runs |
| `Caching.FetchFollowsReply` | internal/scheduler/racing.go:212-224 | an upstream's response, clamped section by section, is the flight's result, in the leader's hand, and set once, for that call's request and at that time; without a response nothing is set, and an error stays an error |
| `Caching.FreshAnswersAreReplies` | internal/scheduler/racing.go:202-204 | over any run a client served from the cache gets what some upstream replied to a request of its key, section by section, but for TTLs |
| `Caching.StaleAnswersAreReplies` | internal/scheduler/racing.go:207-210 | and so with a stale answer |
| `Caching.LeadersEndWell` | internal/scheduler/racing.go:212-224 | over any run a call that leads a flight ends with the clamped response of an upstream to a request of its key and no error, or with nothing and the error if there was one |
| `Caching.WaitersEndWell` | internal/scheduler/racing.go:212-224 | and so does a call that waited |
| `Caching.MissesCall` | internal/scheduler/racing.go:202-212 | a client that finds no answer looks for a stale one, and without that waits for a call made for its own request |
| `Caching.ClientsWaitForTheirs` | internal/scheduler/racing.go:212 | and over any run the call it waits for is for its request |
| `Signature.SelectSignature` | internal/scheduler/scheduler.go:438-453 | the loop over sorted names writes the signature, in whatever order the map is walked |
| `Signature.SignatureIsUnique` | internal/scheduler/scheduler.go:438-453 | a selection has one signature |
| `Signature.SignatureSeparates` | internal/scheduler/scheduler.go:438-453 | names without '=' and addresses without ';' can be told apart by their signatures |
| `Signature.SignaturesCollide` | internal/scheduler/scheduler.go:438-453 | without that two different selections can have the same signature |
| `Lifecycle.ReplaceLive` | internal/scheduler/scheduler.go:337-348 | kept and new upstreams become the live ones, all others get one delayed close, and what was live stays open until then |
| `Lifecycle.FireKeeps` | internal/scheduler/scheduler.go:338-344 | a delayed close that is due takes place once, and nothing else changes |
| `Lifecycle.CloseAll` | internal/scheduler/scheduler.go:216-221 | closing everything live leaves each upstream closed once, whoever still uses it |
| `Lifecycle.CloseAllIsSafeIff` | internal/scheduler/scheduler.go:216-221 | and no request is cut short by it exactly when the requests that use something live have run out of time |
| `Lifecycle.NoneComesBack` | internal/scheduler/scheduler.go:337-351 | in a record that only grows, no close is taken back and nothing that was closed or scheduled is live again |
| `Lifecycle.EveryCloseIsSafeIff` | cmd/dnsproxy/main.go:202 | from any state, whatever requests still come before the retirement and whenever everything live is closed after it, nobody is cut short exactly when nothing is live or a whole span lies between |
| `Lifecycle.EarlyCloseFails` | cmd/dnsproxy/main.go:202 | from any state with something live, a shorter grace cuts a request short: one that starts just before the retirement |
| `Scheduler.KeysDiffer` | internal/scheduler/scheduler.go:275 | keys of names without the separator tell provider and address apart |
| `Scheduler.PickBest` | internal/scheduler/scheduler.go:461-473 | the fastest result that answered, the first of equals; none iff nothing answered |
| `Scheduler.Scheduler.constructor` | internal/scheduler/scheduler.go:74-113 | nothing is live or selected yet, and that is consistent |
| `Scheduler.Scheduler.ProbeProvider` | internal/scheduler/scheduler.go:354-399 | every live mode is probed again on its own upstream, others get one of their own; all that were made are accounted for |
| `Scheduler.Scheduler.CloseMade` | internal/scheduler/scheduler.go:401-407 | closes once each upstream made in the round but the kept one, and never one that is live |
| `Scheduler.Scheduler.SelectAll` | internal/scheduler/scheduler.go:250-268 | each provider is selected with its best result, or not at all; what else was made for it is closed |
| `Scheduler.Scheduler.Collect` | internal/scheduler/scheduler.go:270-280 | addresses, upstreams by key, and one weighted member for each selected provider, and no others |
| `Scheduler.MembersHaveWeights` | internal/config/config.go:494-500 | a selected provider's member has the configured weight, or 1 without one |
| `Scheduler.RetireOthers` | internal/scheduler/scheduler.go:337-345 | every live upstream that is not selected again gets one delayed close, and no other |
| `Scheduler.Scheduler.Adopt` | internal/scheduler/scheduler.go:270-348 | equal addresses keep selection, connections and cache untouched; different ones bring a new selection whose members are the live upstreams |
| `Scheduler.Scheduler.ProbeAndSelect` | internal/scheduler/scheduler.go:224-351 | with any outcomes, a round leaves every upstream ever made in exactly one place (live, waiting for its close, closed once), brings none back to life, and keeps requests safe; what was live and is no more is to be closed 2·ProbeTimeout later, and no other timer changes; there is a selection iff some provider answered, and requests use exactly its upstreams |
| `Scheduler.Scheduler.Fire` | internal/scheduler/scheduler.go:344 | the delayed close closes its upstream once and touches no other |
| `Scheduler.Scheduler.CurrentConfig` | internal/scheduler/scheduler.go:210-214 | a request gets the current selection, also after the end, and is safe unless it comes too late for what was closed |
| `Scheduler.Scheduler.Retire` | internal/scheduler/scheduler.go:192-201 | the loop is asked to end, with the grace given, whatever it is |
| `Scheduler.Scheduler.EndLoop` | internal/scheduler/scheduler.go:164-172 | the loop ends at some later time, perhaps after more rounds; the grace counts from then |
| `Scheduler.Scheduler.CloseAllLive` | internal/scheduler/scheduler.go:150-160 | after any grace everything live is closed, each upstream once, and current is left in place; requests stay safe exactly when those that use something live have run out of time, as after a grace of 2·ProbeTimeout |
| `Scheduler.Scheduler.RetirementIsSafeIff` | internal/scheduler/scheduler.go:150-160 | for every scheduler whose loop has ended: no late request and no time of the close can hurt anybody exactly when nothing is live or the last request that can come is over by then |
| `Scheduler.Scheduler.RequestsAreServed` | internal/scheduler/scheduler.go:333-345 | within 2·ProbeTimeout of its start nothing that a safe request uses has been closed |
| `SchedulerRuns.Replay` | internal/scheduler/scheduler.go:135-221 | over any sequence of rounds, delayed closes, requests, retirement and end: every upstream is in exactly one place at any time, none is closed twice, none comes back between any two times, and a retirement that leaves a request's span cuts no request short |
| `Reload.Handler.Swap` | internal/handler/handler.go:35-37 | the new scheduler is in charge, the old one is handed back |
| `Reload.ReloadTo` | cmd/dnsproxy/main.go:184-203 | a new scheduler without upstreams is dropped with no grace and the old one stays; otherwise it takes over, and the old one is retired with twice the new ProbeTimeout; neither hurts a request by itself |
| `Reload.ReloadIsSafeIff` | cmd/dnsproxy/main.go:202 | when the old loop ends at once, no request can be cut short exactly when the new ProbeTimeout is no shorter than the old one or nothing is live |
| `Reload.CloseRetired` | internal/scheduler/scheduler.go:150-160 | the end of a retired scheduler, whatever its grace: no upstream is left live, each is closed once or still has its delayed close; requests stay safe exactly when those on live upstreams are over |
| `Edns.StripOpt` | internal/ecs/ecs.go:52-64 | in place, exactly the OPT records of the additional section go, and all others stay in order |
| `Edns.SetEcsOverride` | internal/ecs/ecs.go:68-99 | in place, one OPT record is edited or added as the override function says |
| `Edns.OneSubnetLeft` | internal/ecs/ecs.go:75-98 | the edited record ends with the configured subnet, family 1 or 2; before it stand all its other options in order; its flags stay |
| `Edns.OverrideEditsOneRecord` | internal/ecs/ecs.go:68-73 | the edited record is the one the library reports, or a new last one; nothing else in the message changes |
| `Edns.SetDO` | internal/handler/handler.go:97-106 | in place, the reported OPT record gets the flag, or a new one is added |
| `Edns.FlagEditsOneRecord` | internal/handler/handler.go:97-106 | only the flag of that record changes, or a new last record with payload 1232 and the flag is all that is added |
| `Edns.RewriteRequest` | internal/handler/handler.go:71-83 | the client's flag is read before the policy applies and set after it |
| `Edns.UpstreamRequest` | internal/handler/handler.go:71-83 | what goes upstream: under off the request without OPT records and, if the client set the flag and DNSSEC is on, one new record with it; under pass the request as it is; under override the request with the subnet edited |
| `Edns.OffIdentity` | internal/handler/handler.go:71-83 | under off the key depends on the question and on (dnssec and the client's DO) alone |
| `Edns.OverrideIdentity` | internal/handler/handler.go:71-83 | under override on the question, the client's DO and the configured prefix alone |
| `Edns.PassIdentity` | internal/handler/handler.go:71-83 | under pass the key is that of the client's own request |
| `Edns.ClientsShareEntries` | internal/handler/handler.go:71-83 | under off and override two clients share a key exactly when they agree on the name but for case, type, class and the flag as far as it is heeded, whatever other EDNS data they send |
| `Edns.PassingClientsShareEntries` | internal/handler/handler.go:71-83 | under pass exactly when their own requests ask the same |
| `Config.ParseDurationIsExact` | internal/config/config.go:186-213 | a day form returns exactly days·24h plus the rest as integers, and fails iff it has no such meaning or the meaning exceeds 64 bits |
| `Config.MatchDaysIs` | internal/config/config.go:162-164 | a day form is digits, a 'd', and nothing or a text of one line that starts with a digit, and is split in one way only |
| `Config.MostDays` | internal/config/config.go:195-202 | a day is 86400 s, and 106751 days are the most that are accepted |
| `Config.AtoiIs` | internal/config/config.go:190-195 | the digits are read in base ten |
| `Config.DaysAreExact` | internal/config/config.go:195-202 | the division test rejects exactly the day counts whose nanoseconds do not fit |
| `Config.Config.Normalize` | internal/config/config.go:381-480 | accepts exactly the acceptable settings, fills in each default with its value, and changes nothing that is already normal |
| `Config.AcceptableIs` | internal/config/config.go:405-480 | which settings these are, one by one |
| `Config.CheckWeights` | internal/config/config.go:472-479 | accepts exactly named weights from 1 to 100 |
| `Config.CacheGetsSoundBounds` | internal/scheduler/scheduler.go:289-298 | accepted settings reach the cache each in its place: policy by name, limit, lifetime, stale window, stale TTL or its default, and bounds in whole seconds that are still ordered |
| `Config.ResponsesMeetBounds` | internal/config/config.go:410-415 | so every response is clamped within them, and lifetimes that follow the records lie within them too, apart from the cap on SERVFAIL |
| `Config.FixedLifetimeHasNoCap` | internal/cache/cache.go:187-194 | with a fixed lifetime the 30 s cap on SERVFAIL does not exist |

## Left out

- Listeners, TLS, the health endpoint, signals, logging, YAML, port, path and address checks, and the set-up script.
- The DNS library: wire format, the length of a message, and its own resolver; an upstream exchange is a free choice of reply.
- The standard library's parser of durations: a parameter whose results on a text starting with a digit are taken to be from 0 to 2^63 - 1.
- `container/list` and `container/heap` are written out here (a sequence with PushBack, MoveToBack and Remove; up, down, Fix, Push, Pop, Remove).
- Pointers between entries and list nodes: an entry knows whether it is in the list, and is found there.
- Rounding in the float seconds of a duration, and what Go makes of a float beyond `uint32`, which is left to the implementation; here it wraps.
- Overflow of times, totals, frequencies and sequence numbers in 64 bits.
- Lower-casing beyond ASCII, and code units: text is a sequence of characters.
- The coalescer and the caching layer as objects on a heap: they are step systems over values, with messages as addresses; a panic in the coalesced function is not modelled.
- Requests without exactly one question: they bypass cache and coalescer and have no step in `Caching`.
- The time between a response's arrival and its Set: the clamp touches only the leader's own message, so `Caching` makes it one step with the Set.
- Probe rounds in `Scheduler` run to their end before another operation of the same scheduler; probes of different providers are in an order of free choice rather than at the same time.
- The choice of probe count, the median of the round-trip times, the warm-up query and the address-family probers.
- Stop at shutdown, and the second scheduler that a reload may leave while an earlier one still retires; each scheduler is followed by itself.
- Several OPT records beyond the one that the library reports, and the SOA MINIMUM of section 5 of RFC 2308, which the program does not use.
- `internal/bootstrap` and `internal/afp`.
